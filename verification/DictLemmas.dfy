/** Linking and unlinking a pair keep both chains of a dict, and the reference counts. */
module DictLemmas {
  import opened Options
  import opened Seqs
  import opened ByteOrder
  import opened Hashing
  import opened Holdings
  import opened DictState

  // ---------------------------------------------------------------- a new pair

  /** `pairs` with the old head of the list pointing back at `p`. */
  function BackLinked(pairs: Pairs, first: Link, p: Ptr): Pairs
    requires first.Some? ==> first.value in pairs
  {
    if first.Some? then pairs[first.value := pairs[first.value].(prev := Some(p))] else pairs
  }

  function Inserted(pairs: Pairs, first: Link, head: Link, p: Ptr, key: Key, value: Ptr): Pairs
    requires first.Some? ==> first.value in pairs
  {
    BackLinked(pairs, first, p)[p := Pair(head, None, first, value, key)]
  }

  lemma InsertedSame(pairs: Pairs, first: Link, head: Link, p: Ptr, key: Key, value: Ptr)
    requires (first.Some? ==> first.value in pairs) && p !in pairs
    ensures var u := Inserted(pairs, first, head, p, key, value);
      && u.Keys == pairs.Keys + {p}
      && forall q :: q in pairs ==>
           u[q].key == pairs[q].key && u[q].value == pairs[q].value && u[q].hashNext == pairs[q].hashNext
  {
  }

  lemma InsertList(pairs: Pairs, first: Link, order: seq<Ptr>, head: Link, p: Ptr, key: Key, value: Ptr)
    requires ListOk(pairs, first, order) && p !in pairs
    ensures first.Some? ==> first.value in pairs
    ensures ListOk(Inserted(pairs, first, head, p, key, value), Some(p), [p] + order)
  {
    assert first.Some? ==> first.value == order[0];
    var u, s := Inserted(pairs, first, head, p, key, value), [p] + order;
    NoDupCons(p, order);
    forall i | 0 <= i < |s| ensures ListStep(u, s, i) {
      if i > 0 {
        assert ListStep(pairs, order, i - 1);
        assert s[i] == order[i - 1] && s[i] != p;
        if i > 1 { NoDupIndices(order); assert order[i - 1] != order[0]; }
      }
    }
    forall q ensures q in u <==> q in s {
      assert q in s <==> q == p || q in order;
    }
  }

  lemma InsertBucket(pairs: Pairs, size: nat, b: nat, head: Link, chain: seq<Ptr>, first: Link, p: Ptr, key: Key,
      value: Ptr)
    requires 0 < size < 0x8000_0000 && BucketOk(pairs, size, b, head, chain)
    requires p !in pairs && (first.Some? ==> first.value in pairs) && GetBucket(key, size) == b
    ensures BucketOk(Inserted(pairs, first, head, p, key, value), size, b, Some(p), [p] + chain)
  {
    hide GetBucket;
    var u, s := Inserted(pairs, first, head, p, key, value), [p] + chain;
    InsertedSame(pairs, first, head, p, key, value);
    assert p !in chain;
    NoDupCons(p, chain);
    forall i | 0 <= i < |s| ensures HashStep(u, s, i) {
      if i > 0 { assert HashStep(pairs, chain, i - 1); }
    }
    forall q ensures q in s <==> q in u && GetBucket(u[q].key, size) == b {
      assert q in s <==> q == p || q in chain;
    }
  }

  lemma OtherBucket(pairs: Pairs, u: Pairs, size: nat, b: nat, head: Link, chain: seq<Ptr>, p: Ptr)
    requires 0 < size < 0x8000_0000 && BucketOk(pairs, size, b, head, chain)
    requires u.Keys + {p} == pairs.Keys + {p}
    requires forall q :: q in pairs && q != p ==> u[q].key == pairs[q].key
    requires forall q :: q in chain ==> q != p && u[q].hashNext == pairs[q].hashNext
    requires p in u ==> GetBucket(u[p].key, size) != b
    ensures BucketOk(u, size, b, head, chain)
  {
    hide GetBucket, NoDup;
    forall i | 0 <= i < |chain| ensures HashStep(u, chain, i) {
      assert HashStep(pairs, chain, i);
      assert chain[i] in chain;
      assert chain[i] in pairs.Keys + {p};
    }
    forall q ensures q in chain <==> q in u && GetBucket(u[q].key, size) == b {
      if q in chain { assert q in pairs.Keys + {p}; }
      if q in u { assert q in u.Keys + {p}; }
    }
  }

  lemma InsertBuckets(pairs: Pairs, heads: seq<Link>, chains: seq<seq<Ptr>>, first: Link, p: Ptr, key: Key, value: Ptr)
    requires BucketsOk(pairs, heads, chains) && p !in pairs && (first.Some? ==> first.value in pairs)
    ensures 0 <= GetBucket(key, |heads|) < |heads|
    ensures var b := GetBucket(key, |heads|);
      BucketsOk(Inserted(pairs, first, heads[b], p, key, value), heads[b := Some(p)], chains[b := [p] + chains[b]])
  {
    hide BucketOk, GetBucket, Inserted;
    BucketsAgree(key, |heads|);
    var b := GetBucket(key, |heads|);
    var u, hs, cs := Inserted(pairs, first, heads[b], p, key, value), heads[b := Some(p)], chains[b := [p] + chains[b]];
    InsertedSame(pairs, first, heads[b], p, key, value);
    InsertedAt(pairs, first, heads[b], p, key, value);
    forall c {:trigger cs[c]} | 0 <= c < |hs| ensures BucketOk(u, |hs|, c, hs[c], cs[c]) {
      assert BucketOk(pairs, |heads|, c, heads[c], chains[c]);
      if c == b {
        InsertBucket(pairs, |heads|, b, heads[b], chains[b], first, p, key, value);
      } else {
        ChainLive(pairs, |heads|, c, heads[c], chains[c]);
        OtherBucket(pairs, u, |heads|, c, heads[c], chains[c], p);
      }
    }
  }

  lemma InsertedAt(pairs: Pairs, first: Link, head: Link, p: Ptr, key: Key, value: Ptr)
    requires first.Some? ==> first.value in pairs
    ensures p in Inserted(pairs, first, head, p, key, value)
    ensures Inserted(pairs, first, head, p, key, value)[p] == Pair(head, None, first, value, key)
  {
  }

  lemma ChainLive(pairs: Pairs, size: nat, b: nat, head: Link, chain: seq<Ptr>)
    requires 0 < size < 0x8000_0000 && BucketOk(pairs, size, b, head, chain)
    ensures forall q :: q in chain ==> q in pairs
  {
  }

  lemma InsertKeys(pairs: Pairs, first: Link, head: Link, p: Ptr, key: Key, value: Ptr)
    requires KeysOk(pairs) && p !in pairs && (first.Some? ==> first.value in pairs)
    requires forall q :: q in pairs ==> pairs[q].key != key
    ensures KeysOk(Inserted(pairs, first, head, p, key, value))
  {
    InsertedSame(pairs, first, head, p, key, value);
  }

  // ---------------------------------------------------------------- a pair taken out

  /** The pair at `i` and the one before it are there. */
  ghost predicate Stands(pairs: Pairs, chain: seq<Ptr>, i: nat) {
    i < |chain| && chain[i] in pairs && (i > 0 ==> chain[i - 1] in pairs)
  }

  /** `pairs` with `chain[i]` bypassed in its bucket. */
  ghost function HashCut(pairs: Pairs, chain: seq<Ptr>, i: nat): Pairs
    requires Stands(pairs, chain, i)
  {
    if i == 0 then pairs else pairs[chain[i - 1] := pairs[chain[i - 1]].(hashNext := pairs[chain[i]].hashNext)]
  }

  /** `pairs` with `p` bypassed in the list. */
  ghost function ListCut(pairs: Pairs, p: Ptr): Pairs
    requires Spliced(pairs, p)
  {
    var u :=
      if pairs[p].prev.None? then pairs
      else pairs[pairs[p].prev.value := pairs[pairs[p].prev.value].(next := pairs[p].next)];
    if u[p].next.Some? then u[u[p].next.value := u[u[p].next.value].(prev := u[p].prev)] else u
  }

  lemma HashAt(pairs: Pairs, head: Link, chain: seq<Ptr>, k: nat)
    requires HashChain(pairs, head, chain) && k < |chain|
    ensures chain[k] in pairs && pairs[chain[k]].hashNext == At(chain, k + 1)
  {
    hide At;
    assert HashStep(pairs, chain, k);
  }

  lemma ListAt(pairs: Pairs, first: Link, order: seq<Ptr>, k: nat)
    requires ListChain(pairs, first, order) && k < |order|
    ensures var p := order[k]; p in pairs && pairs[p].next == At(order, k + 1) && pairs[p].prev == At(order, k - 1)
  {
    hide At;
    assert ListStep(pairs, order, k);
  }

  lemma HashCutNext(pairs: Pairs, head: Link, chain: seq<Ptr>, i: nat, m: nat)
    requires HashChain(pairs, head, chain) && NoDup(chain) && i < |chain| && m < |chain| && m != i
    ensures Stands(pairs, chain, i)
    ensures var u := HashCut(pairs, chain, i) - {chain[i]};
      chain[m] in u && u[chain[m]].hashNext == At(chain, if m == i - 1 then i + 1 else m + 1)
  {
    hide NoDup, HashChain, At;
    HashAt(pairs, head, chain, i);
    HashAt(pairs, head, chain, m);
    if i > 0 { HashAt(pairs, head, chain, i - 1); }
    NoDupAt(chain, i, m);
    if i > 0 && m != i - 1 { NoDupAt(chain, i - 1, m); }
  }

  lemma HashCutChain(pairs: Pairs, head: Link, chain: seq<Ptr>, i: nat)
    requires HashChain(pairs, head, chain) && NoDup(chain) && Stands(pairs, chain, i)
    ensures HashChain(HashCut(pairs, chain, i) - {chain[i]},
                      if i == 0 then pairs[chain[0]].hashNext else head, Cut(chain, i))
  {
    hide HashCut, NoDup, Cut, At;
    var u, r := HashCut(pairs, chain, i) - {chain[i]}, Cut(chain, i);
    HashAt(pairs, head, chain, i);
    CutAt(chain, i, 0);
    forall k | 0 <= k < |r| ensures HashStep(u, r, k) {
      CutAt(chain, i, k);
      CutAt(chain, i, k + 1);
      HashCutNext(pairs, head, chain, i, if k < i then k else k + 1);
    }
  }

  lemma HashCutSame(pairs: Pairs, chain: seq<Ptr>, i: nat)
    requires Stands(pairs, chain, i)
    ensures HashCut(pairs, chain, i).Keys == pairs.Keys
    ensures forall q :: q in pairs ==>
      HashCut(pairs, chain, i)[q] == pairs[q].(hashNext := HashCut(pairs, chain, i)[q].hashNext)
    ensures forall q :: q in pairs && q !in chain ==> HashCut(pairs, chain, i)[q] == pairs[q]
  {
  }

  lemma HashCutBucket(pairs: Pairs, size: nat, b: nat, head: Link, chain: seq<Ptr>, i: nat)
    requires 0 < size < 0x8000_0000 && BucketOk(pairs, size, b, head, chain) && Stands(pairs, chain, i)
    ensures BucketOk(HashCut(pairs, chain, i) - {chain[i]}, size, b,
      if i == 0 then pairs[chain[0]].hashNext else head, Cut(chain, i))
  {
    hide GetBucket, NoDup, Cut, HashChain, HashCut;
    assert chain[i] in chain;
    CutNoDup(chain, i);
    HashCutChain(pairs, head, chain, i);
    HashCutSame(pairs, chain, i);
  }

  /** In a list, the neighbours of the element at `i` are other elements. */
  lemma Neighbours(pairs: Pairs, first: Link, order: seq<Ptr>, i: nat)
    requires ListChain(pairs, first, order) && NoDup(order) && i < |order|
    ensures var p := order[i];
      && p in pairs && pairs[p].prev == At(order, i - 1) && pairs[p].next == At(order, i + 1)
      && (i > 0 ==> order[i - 1] in pairs && order[i - 1] != p)
      && (i + 1 < |order| ==> order[i + 1] in pairs && order[i + 1] != p)
  {
    hide NoDup, ListChain;
    ListAt(pairs, first, order, i);
    if i > 0 { ListAt(pairs, first, order, i - 1); NoDupAt(order, i - 1, i); }
    if i + 1 < |order| { ListAt(pairs, first, order, i + 1); NoDupAt(order, i, i + 1); }
  }

  lemma ListCutAt(pairs: Pairs, first: Link, order: seq<Ptr>, i: nat, m: nat)
    requires ListChain(pairs, first, order) && NoDup(order) && i < |order| && m < |order| && m != i
    ensures Spliced(pairs, order[i])
    ensures var p := order[i];
      && var u := ListCut(pairs, p) - {p};
      && order[m] in u && u[order[m]].next == At(order, if m == i - 1 then i + 1 else m + 1)
      && u[order[m]].prev == At(order, if m == i + 1 then i - 1 else m - 1)
  {
    hide NoDup, ListChain;
    Neighbours(pairs, first, order, i);
    ListAt(pairs, first, order, m);
    if i > 0 { ListAt(pairs, first, order, i - 1); }
    if i + 1 < |order| { ListAt(pairs, first, order, i + 1); }
    NoDupAt(order, i, m);
    if i > 0 && m != i - 1 { NoDupAt(order, i - 1, m); }
    if i + 1 < |order| && m != i + 1 { NoDupAt(order, i + 1, m); }
  }

  ghost predicate Spliced(pairs: Pairs, p: Ptr) {
    && p in pairs && (pairs[p].prev.Some? ==> pairs[p].prev.value in pairs)
    && (pairs[p].next.Some? ==> pairs[p].next.value in pairs)
  }

  lemma ListLinked(pairs: Pairs, first: Link, order: seq<Ptr>, i: nat)
    requires ListChain(pairs, first, order) && NoDup(order) && i < |order|
    ensures Spliced(pairs, order[i])
  {
    Neighbours(pairs, first, order, i);
  }

  lemma ListCutElement(pairs: Pairs, first: Link, order: seq<Ptr>, i: nat, k: nat)
    requires ListChain(pairs, first, order) && NoDup(order) && i < |order| && k < |order| - 1
    requires Spliced(pairs, order[i])
    ensures var u, r := ListCut(pairs, order[i]) - {order[i]}, Cut(order, i);
      r[k] in u && u[r[k]].next == At(r, k + 1) && u[r[k]].prev == At(r, k - 1)
  {
    hide ListCut, NoDup, Cut, At, ListChain;
    CutAt(order, i, k);
    CutAt(order, i, k + 1);
    CutAt(order, i, k - 1);
    ListCutAt(pairs, first, order, i, if k < i then k else k + 1);
  }

  lemma ListCutChain(pairs: Pairs, first: Link, order: seq<Ptr>, i: nat)
    requires ListChain(pairs, first, order) && NoDup(order) && i < |order| && Spliced(pairs, order[i])
    ensures ListChain(ListCut(pairs, order[i]) - {order[i]},
                      if i == 0 then pairs[order[i]].next else first, Cut(order, i))
  {
    hide ListCut, NoDup, Cut, At, Spliced;
    var u, r := ListCut(pairs, order[i]) - {order[i]}, Cut(order, i);
    ListAt(pairs, first, order, i);
    CutAt(order, i, 0);
    forall k | 0 <= k < |r| ensures ListStep(u, r, k) {
      ListCutElement(pairs, first, order, i, k);
    }
  }

  lemma ListCutSame(pairs: Pairs, p: Ptr)
    requires Spliced(pairs, p)
    ensures var u := ListCut(pairs, p);
      && u.Keys == pairs.Keys
      && forall q :: q in pairs ==>
           u[q].key == pairs[q].key && u[q].value == pairs[q].value && u[q].hashNext == pairs[q].hashNext
  {
  }

  lemma ListCutList(pairs: Pairs, first: Link, order: seq<Ptr>, i: nat)
    requires ListOk(pairs, first, order) && i < |order|
    ensures Spliced(pairs, order[i])
    ensures ListOk(ListCut(pairs, order[i]) - {order[i]}, if i == 0 then pairs[order[i]].next else first, Cut(order, i))
  {
    hide NoDup, Cut, ListCut, Spliced;
    ListLinked(pairs, first, order, i);
    ListCutChain(pairs, first, order, i);
    CutNoDup(order, i);
    ListCutSame(pairs, order[i]);
  }

  /** The list does not see a change of `hash_next`. */
  lemma ListUnhashed(pairs: Pairs, u: Pairs, first: Link, order: seq<Ptr>)
    requires ListOk(pairs, first, order) && u.Keys == pairs.Keys
    requires forall q :: q in pairs ==> u[q].next == pairs[q].next && u[q].prev == pairs[q].prev
    ensures ListOk(u, first, order)
  {
    hide NoDup, At;
    assert forall q :: q in u <==> q in pairs;
    forall i | 0 <= i < |order| ensures ListStep(u, order, i) {
      assert ListStep(pairs, order, i);
    }
  }

  /** A bucket does not see a change of the list's links. */
  lemma BucketUnlisted(pairs: Pairs, u: Pairs, size: nat, b: nat, head: Link, chain: seq<Ptr>)
    requires 0 < size < 0x8000_0000 && BucketOk(pairs, size, b, head, chain) && u.Keys == pairs.Keys
    requires forall q :: q in pairs ==> u[q].key == pairs[q].key && u[q].hashNext == pairs[q].hashNext
    ensures BucketOk(u, size, b, head, chain)
  {
    hide NoDup, At, GetBucket;
    assert forall q :: q in u <==> q in pairs;
    forall i | 0 <= i < |chain| ensures HashStep(u, chain, i) {
      assert HashStep(pairs, chain, i);
    }
  }

  /** What `dict_del` leaves of the pairs. */
  ghost function Deleted(pairs: Pairs, chain: seq<Ptr>, i: nat): Pairs
    requires Stands(pairs, chain, i) && Spliced(HashCut(pairs, chain, i), chain[i])
  {
    ListCut(HashCut(pairs, chain, i), chain[i]) - {chain[i]}
  }

  lemma DeletedSame(pairs: Pairs, chain: seq<Ptr>, i: nat)
    requires Stands(pairs, chain, i) && Spliced(HashCut(pairs, chain, i), chain[i])
    ensures var u := Deleted(pairs, chain, i);
      && u.Keys == pairs.Keys - {chain[i]}
      && (forall q :: q in u ==> u[q].key == pairs[q].key && u[q].value == pairs[q].value)
      && (forall q :: q in u && q !in chain ==> u[q].hashNext == pairs[q].hashNext)
  {
    hide HashCut, ListCut, Spliced;
    HashCutSame(pairs, chain, i);
    ListCutSame(HashCut(pairs, chain, i), chain[i]);
  }

  lemma DeleteList(pairs: Pairs, first: Link, order: seq<Ptr>, chain: seq<Ptr>, i: nat, j: nat)
    requires ListOk(pairs, first, order) && Stands(pairs, chain, i)
    requires j < |order| && order[j] == chain[i]
    ensures Spliced(HashCut(pairs, chain, i), chain[i])
    ensures ListOk(Deleted(pairs, chain, i), if j == 0 then pairs[chain[i]].next else first, Cut(order, j))
  {
    hide HashCut, ListCut, Spliced, ListOk, Cut;
    HashCutSame(pairs, chain, i);
    assert chain[i] in chain;
    ListUnhashed(pairs, HashCut(pairs, chain, i), first, order);
    ListCutList(HashCut(pairs, chain, i), first, order, j);
  }

  lemma DeleteBuckets(pairs: Pairs, heads: seq<Link>, chains: seq<seq<Ptr>>, b: nat, i: nat)
    requires BucketsOk(pairs, heads, chains) && b < |heads| && i < |chains[b]|
    requires Stands(pairs, chains[b], i) && Spliced(HashCut(pairs, chains[b], i), chains[b][i])
    ensures BucketsOk(Deleted(pairs, chains[b], i),
      if i == 0 then heads[b := pairs[chains[b][0]].hashNext] else heads, chains[b := Cut(chains[b], i)])
  {
    hide HashCut, ListCut, Spliced, BucketOk, Cut, Deleted, GetBucket;
    var u, p := Deleted(pairs, chains[b], i), chains[b][i];
    var hs := if i == 0 then heads[b := pairs[chains[b][0]].hashNext] else heads;
    var cs := chains[b := Cut(chains[b], i)];
    DeletedSame(pairs, chains[b], i);
    forall c {:trigger cs[c]} | 0 <= c < |hs| ensures BucketOk(u, |hs|, c, hs[c], cs[c]) {
      assert BucketOk(pairs, |heads|, c, heads[c], chains[c]);
      assert BucketOk(pairs, |heads|, b, heads[b], chains[b]);
      if c == b {
        DeleteBucket(pairs, |heads|, b, heads[b], chains[b], i);
      } else {
        ChainsApart(pairs, |heads|, b, c, heads[b], heads[c], chains[b], chains[c]);
        assert p in chains[b];
        OtherBucket(pairs, u, |heads|, c, heads[c], chains[c], p);
      }
    }
  }

  lemma DeleteBucket(pairs: Pairs, size: nat, b: nat, head: Link, chain: seq<Ptr>, i: nat)
    requires 0 < size < 0x8000_0000 && BucketOk(pairs, size, b, head, chain) && i < |chain|
    requires Stands(pairs, chain, i) && Spliced(HashCut(pairs, chain, i), chain[i])
    ensures BucketOk(Deleted(pairs, chain, i), size, b,
                     if i == 0 then pairs[chain[0]].hashNext else head, Cut(chain, i))
  {
    hide HashCut, ListCut, Spliced, BucketOk, Cut;
    HashCutBucket(pairs, size, b, head, chain, i);
    HashCutSame(pairs, chain, i);
    ListCutSame(HashCut(pairs, chain, i), chain[i]);
    BucketUnlisted(HashCut(pairs, chain, i) - {chain[i]}, Deleted(pairs, chain, i), size, b,
      if i == 0 then pairs[chain[0]].hashNext else head, Cut(chain, i));
  }

  lemma ChainsApart(pairs: Pairs, size: nat, b: nat, c: nat, hb: Link, hc: Link, x: seq<Ptr>, y: seq<Ptr>)
    requires 0 < size < 0x8000_0000 && b != c && BucketOk(pairs, size, b, hb, x) && BucketOk(pairs, size, c, hc, y)
    ensures forall q :: q in y ==> q in pairs && q !in x
  {
  }

  // ---------------------------------------------------------------- reference counts

  lemma {:induction false} UsesSame(order: seq<Ptr>, pairs: Pairs, u: Pairs, d: Ptr)
    requires forall q :: q in order ==> q in pairs && q in u && pairs[q].value == u[q].value
    ensures Uses(order, u, d) == Uses(order, pairs, d)
  {
    if order != [] {
      assert order[0] in order;
      UsesSame(order[1..], pairs, u, d);
    }
  }

  lemma {:induction false} UsesSplit(a: seq<Ptr>, b: seq<Ptr>, pairs: Pairs, d: Ptr)
    ensures Uses(a + b, pairs, d) == Uses(a, pairs, d) + Uses(b, pairs, d)
  {
    if a == [] {
      assert a + b == b;
    } else {
      UsesSplit(a[1..], b, pairs, d);
      assert (a + b)[1..] == a[1..] + b;
    }
  }

  /** The uses of a value, with the pair at `i` counted apart. */
  lemma UsesAt(order: seq<Ptr>, pairs: Pairs, i: nat, d: Ptr)
    requires i < |order| && order[i] in pairs
    ensures Uses(order, pairs, d) == Uses(Cut(order, i), pairs, d) + (if pairs[order[i]].value == d then 1 else 0)
  {
    var a, p, b := order[..i], order[i], order[i + 1..];
    assert order == a + ([p] + b);
    UsesSplit(a, [p] + b, pairs, d);
    assert ([p] + b)[1..] == b;
    UsesSplit(a, b, pairs, d);
  }

  lemma UsesCons(p: Ptr, order: seq<Ptr>, pairs: Pairs, d: Ptr)
    requires p in pairs
    ensures Uses([p] + order, pairs, d) == Uses(order, pairs, d) + (if pairs[p].value == d then 1 else 0)
  {
    assert ([p] + order)[1..] == order;
  }

  /** A pair takes over one outside reference to its new value and leaves one to its old value. */
  lemma StoreRefs(datas: Datas, pairs: Pairs, order: seq<Ptr>, held: Held, i: nat, v: Ptr)
    requires RefsOk(datas, pairs, order, held) && NoDup(order) && i < |order| && order[i] in pairs
    requires Outside(held, v) > 0
    ensures var p := order[i]; var w := pairs[p].value;
      RefsOk(datas, pairs[p := pairs[p].(value := v)], order, Moved(held, v, w))
  {
    hide Uses, NoDup;
    var p := order[i];
    var w := pairs[p].value;
    var u := pairs[p := pairs[p].(value := v)];
    MovedLive(datas, held, v, w);
    hide Moved, Outside;
    forall d | d in datas ensures datas[d].refs == Uses(order, u, d) + Outside(Moved(held, v, w), d) {
      StoreUses(pairs, order, i, v, d);
      MovedAt(held, v, w, d);
    }
  }

  lemma MovedLive(datas: Datas, held: Held, v: Ptr, w: Ptr)
    requires Outside(held, v) > 0 && w in datas && forall d :: Outside(held, d) > 0 ==> d in datas
    ensures v in datas
    ensures forall d :: Outside(Moved(held, v, w), d) > 0 ==> d in datas
  {
  }

  lemma StoreUses(pairs: Pairs, order: seq<Ptr>, i: nat, v: Ptr, d: Ptr)
    requires NoDup(order) && i < |order| && order[i] in pairs
    ensures var p := order[i];
      Uses(order, pairs[p := pairs[p].(value := v)], d)
      == Uses(order, pairs, d) - (if pairs[p].value == d then 1 else 0) + (if v == d then 1 else 0)
  {
    hide Uses, NoDup, Cut;
    var p := order[i];
    var u := pairs[p := pairs[p].(value := v)];
    CutNoDup(order, i);
    UsesAt(order, pairs, i, d);
    UsesAt(order, u, i, d);
    UsesUnchanged(Cut(order, i), pairs, u, p, d);
  }

  lemma {:induction false} UsesUnchanged(order: seq<Ptr>, pairs: Pairs, u: Pairs, p: Ptr, d: Ptr)
    requires p !in order && (forall q :: q != p ==> (q in pairs <==> q in u))
    requires forall q :: q in pairs && q != p ==> u[q].value == pairs[q].value
    ensures Uses(order, u, d) == Uses(order, pairs, d)
  {
    if order != [] {
      assert order[0] in order;
      UsesUnchanged(order[1..], pairs, u, p, d);
    }
  }

  /** A new pair takes over one outside reference to its value. */
  lemma InsertRefs(datas: Datas, pairs: Pairs, order: seq<Ptr>, held: Held, u: Pairs, p: Ptr)
    requires RefsOk(datas, pairs, order, held) && p !in pairs && (forall q :: q in order ==> q in pairs)
    requires u.Keys == pairs.Keys + {p} && (forall q :: q in pairs ==> u[q].value == pairs[q].value)
    requires Outside(held, u[p].value) > 0
    ensures RefsOk(datas, u, [p] + order, Lost(held, u[p].value))
  {
    hide Uses;
    var h := Lost(held, u[p].value);
    assert forall q :: q in u <==> q in pairs || q == p;
    forall d | d in datas ensures datas[d].refs == Uses([p] + order, u, d) + Outside(h, d) {
      UsesCons(p, order, u, d);
      UsesSame(order, pairs, u, d);
    }
  }

  /** A pair taken out leaves its reference outside. */
  lemma DeleteRefs(datas: Datas, pairs: Pairs, order: seq<Ptr>, held: Held, u: Pairs, j: nat)
    requires RefsOk(datas, pairs, order, held) && NoDup(order) && j < |order| && order[j] in pairs
    requires u.Keys == pairs.Keys - {order[j]} && (forall q :: q in u ==> u[q].value == pairs[q].value)
    ensures RefsOk(datas, u, Cut(order, j), Gained(held, pairs[order[j]].value))
  {
    hide CountsOk, NoDup, Cut, Gained, Outside;
    DeleteValues(datas, pairs, u);
    GainedLive(datas, held, pairs[order[j]].value);
    DeleteCounts(datas, pairs, order, held, u, j);
  }

  lemma DeleteCounts(datas: Datas, pairs: Pairs, order: seq<Ptr>, held: Held, u: Pairs, j: nat)
    requires CountsOk(datas, pairs, order, held) && NoDup(order) && j < |order| && order[j] in pairs
    requires u.Keys == pairs.Keys - {order[j]} && (forall q :: q in u ==> u[q].value == pairs[q].value)
    ensures CountsOk(datas, u, Cut(order, j), Gained(held, pairs[order[j]].value))
  {
    hide Uses, NoDup, Cut, Gained, Outside;
    forall d | d in datas
      ensures datas[d].refs == Uses(Cut(order, j), u, d) + Outside(Gained(held, pairs[order[j]].value), d)
    {
      DeleteCount(datas[d].refs, pairs, order, held, u, j, d);
    }
  }

  lemma DeleteValues(datas: Datas, pairs: Pairs, u: Pairs)
    requires (forall p :: p in pairs ==> pairs[p].value in datas) && u.Keys <= pairs.Keys
    requires forall q :: q in u ==> u[q].value == pairs[q].value
    ensures forall p :: p in u ==> u[p].value in datas
  {
  }

  lemma DeleteCount(refs: int, pairs: Pairs, order: seq<Ptr>, held: Held, u: Pairs, j: nat, d: Ptr)
    requires NoDup(order) && j < |order| && order[j] in pairs && refs == Uses(order, pairs, d) + Outside(held, d)
    requires u.Keys == pairs.Keys - {order[j]} && (forall q :: q in u ==> u[q].value == pairs[q].value)
    ensures refs == Uses(Cut(order, j), u, d) + Outside(Gained(held, pairs[order[j]].value), d)
  {
    hide Uses, NoDup, Cut, Gained, Outside;
    DeleteUses(pairs, order, u, j, d);
    GainedAt(held, pairs[order[j]].value, d);
  }

  lemma GainedLive(datas: Datas, held: Held, w: Ptr)
    requires w in datas && forall d :: Outside(held, d) > 0 ==> d in datas
    ensures forall d :: Outside(Gained(held, w), d) > 0 ==> d in datas
  {
  }

  lemma DeleteUses(pairs: Pairs, order: seq<Ptr>, u: Pairs, j: nat, d: Ptr)
    requires NoDup(order) && j < |order| && order[j] in pairs
    requires u.Keys == pairs.Keys - {order[j]} && (forall q :: q in u ==> u[q].value == pairs[q].value)
    ensures Uses(order, pairs, d) == Uses(Cut(order, j), u, d) + (if pairs[order[j]].value == d then 1 else 0)
  {
    hide Uses, NoDup, Cut;
    CutNoDup(order, j);
    assert forall q :: q in u <==> q in pairs && q != order[j];
    UsesAt(order, pairs, j, d);
    UsesUnchanged(Cut(order, j), pairs, u, order[j], d);
  }

  lemma RefRefs(datas: Datas, pairs: Pairs, order: seq<Ptr>, held: Held, d: Ptr)
    requires RefsOk(datas, pairs, order, held) && d in datas
    ensures RefsOk(datas[d := datas[d].(refs := datas[d].refs + 1)], pairs, order, Gained(held, d))
  {
    hide Uses;
  }

  /** A value goes away exactly when nothing refers to it any more. */
  lemma UnrefRefs(datas: Datas, pairs: Pairs, order: seq<Ptr>, held: Held, d: Ptr)
    requires RefsOk(datas, pairs, order, held) && Outside(held, d) > 0 && (forall q :: q in pairs <==> q in order)
    ensures datas[d].refs > 0
    ensures RefsOk(datas[d := datas[d].(refs := datas[d].refs - 1)], pairs, order, Lost(held, d))
    ensures datas[d].refs == 1 ==> RefsOk(datas - {d}, pairs, order, Lost(held, d))
  {
    hide Uses;
    if datas[d].refs == 1 {
      forall p | p in pairs ensures pairs[p].value != d {
        if pairs[p].value == d { UsedOnce(order, pairs, p); }
      }
    }
  }

  lemma {:induction false} UsedOnce(order: seq<Ptr>, pairs: Pairs, p: Ptr)
    requires p in order && p in pairs
    ensures Uses(order, pairs, pairs[p].value) > 0
  {
    if order[0] != p { UsedOnce(order[1..], pairs, p); }
  }

  /** A fresh value has no references yet. */
  lemma NewRefs(datas: Datas, pairs: Pairs, order: seq<Ptr>, held: Held, d: Ptr, bytes: Value)
    requires RefsOk(datas, pairs, order, held) && d !in datas && (forall q :: q in order ==> q in pairs)
    ensures RefsOk(datas[d := Data(0, bytes)], pairs, order, held)
  {
    hide Uses;
    NeverUsed(order, pairs, d);
  }

  lemma {:induction false} NeverUsed(order: seq<Ptr>, pairs: Pairs, d: Ptr)
    requires forall q :: q in order ==> q in pairs && pairs[q].value != d
    ensures Uses(order, pairs, d) == 0
  {
    if order != [] {
      assert order[0] in order;
      NeverUsed(order[1..], pairs, d);
    }
  }

  // ---------------------------------------------------------------- values changed in place

  lemma StoreBuckets(pairs: Pairs, heads: seq<Link>, chains: seq<seq<Ptr>>, p: Ptr, v: Ptr)
    requires BucketsOk(pairs, heads, chains) && p in pairs
    ensures BucketsOk(pairs[p := pairs[p].(value := v)], heads, chains)
  {
    hide BucketOk;
    var u := pairs[p := pairs[p].(value := v)];
    assert u.Keys == pairs.Keys;
    forall b {:trigger chains[b]} | 0 <= b < |heads| ensures BucketOk(u, |heads|, b, heads[b], chains[b]) {
      BucketUnlisted(pairs, u, |heads|, b, heads[b], chains[b]);
    }
  }

  // ---------------------------------------------------------------- entries

  lemma EntriesKeysOnce(order: seq<Ptr>, pairs: Pairs)
    requires (forall p :: p in order ==> p in pairs) && NoDup(order) && KeysOk(pairs)
    ensures KeysOnce(Entries(order, pairs))
  {
    NoDupIndices(order);
    var es := Entries(order, pairs);
    forall i, j | 0 <= i < j < |es| ensures es[i].0 != es[j].0 {
      assert order[i] in pairs && order[j] in pairs && order[i] != order[j];
    }
  }

  lemma EntriesStore(order: seq<Ptr>, pairs: Pairs, i: nat, v: Ptr)
    requires (forall p :: p in order ==> p in pairs) && NoDup(order) && KeysOk(pairs) && i < |order|
    ensures var p := order[i];
      Entries(order, pairs[p := pairs[p].(value := v)]) == Put(Entries(order, pairs), pairs[p].key, v)
  {
    hide NoDup, Put, Find, Replaced, KeysOk, Dropped;
    var p := order[i];
    var es, u := Entries(order, pairs), pairs[p := pairs[p].(value := v)];
    EntriesKeysOnce(order, pairs);
    FindAt(es, i);
    EntriesStored(order, pairs, i, v);
    PutKnown(es, pairs[p].key, v);
  }

  lemma EntriesStored(order: seq<Ptr>, pairs: Pairs, i: nat, v: Ptr)
    requires (forall p :: p in order ==> p in pairs) && NoDup(order) && i < |order|
    ensures var p := order[i];
      Entries(order, pairs[p := pairs[p].(value := v)]) == Entries(order, pairs)[i := (pairs[p].key, v)]
  {
    NoDupIndices(order);
  }

  lemma PutKnown<V>(es: seq<(Key, V)>, k: Key, v: V)
    requires Find(es, k).Some?
    ensures Put(es, k, v) == Replaced(es, k, v)
  {
  }

  lemma EntriesInsert(order: seq<Ptr>, pairs: Pairs, u: Pairs, p: Ptr)
    requires (forall q :: q in order ==> q in pairs) && p !in pairs && u.Keys == pairs.Keys + {p}
    requires forall q :: q in pairs ==> u[q].value == pairs[q].value && u[q].key == pairs[q].key
    requires forall q :: q in pairs ==> pairs[q].key != u[p].key
    ensures forall q :: q in [p] + order ==> q in u
    ensures Entries([p] + order, u) == Put(Entries(order, pairs), u[p].key, u[p].value)
  {
    var es := Entries(order, pairs);
    FindMeaning(es, u[p].key);
    assert Entries([p] + order, u) == [(u[p].key, u[p].value)] + es;
  }

  lemma EntriesDelete(order: seq<Ptr>, pairs: Pairs, u: Pairs, j: nat)
    requires (forall q :: q in order ==> q in pairs) && NoDup(order) && KeysOk(pairs) && j < |order|
    requires u.Keys == pairs.Keys - {order[j]}
    requires forall q :: q in u ==> u[q].value == pairs[q].value && u[q].key == pairs[q].key
    ensures forall q :: q in Cut(order, j) ==> q in u
    ensures Entries(Cut(order, j), u) == Dropped(Entries(order, pairs), pairs[order[j]].key)
  {
    hide NoDup, Put, Find, Replaced, KeysOk, Dropped;
    var es := Entries(order, pairs);
    EntriesKeysOnce(order, pairs);
    FindAt(es, j);
    CutNoDup(order, j);
    EntriesCut(order, pairs, u, j);
  }

  lemma EntriesCut(order: seq<Ptr>, pairs: Pairs, u: Pairs, j: nat)
    requires (forall q :: q in order ==> q in pairs) && j < |order| && (forall q :: q in Cut(order, j) ==> q in u)
    requires forall q :: q in u && q in pairs ==> u[q].value == pairs[q].value && u[q].key == pairs[q].key
    ensures Entries(Cut(order, j), u) == Cut(Entries(order, pairs), j)
  {
    var r := Cut(order, j);
    forall k | 0 <= k < |r| ensures Entries(r, u)[k] == Cut(Entries(order, pairs), j)[k] {
      CutAt(order, j, k);
      assert r[k] in r;
    }
  }

  /** A key is found exactly when some pair has it. */
  lemma EntriesFind(order: seq<Ptr>, pairs: Pairs, k: Key)
    requires (forall p :: p in pairs <==> p in order) && NoDup(order) && KeysOk(pairs)
    ensures (forall p :: p in pairs ==> pairs[p].key != k) ==> Find(Entries(order, pairs), k).None?
    ensures forall p :: p in pairs && pairs[p].key == k ==> Find(Entries(order, pairs), k) == Some(pairs[p].value)
  {
    hide NoDup, Put, Replaced, Dropped;
    var es := Entries(order, pairs);
    FindMeaning(es, k);
    EntriesKeysOnce(order, pairs);
    forall p | p in pairs && pairs[p].key == k ensures Find(es, k) == Some(pairs[p].value) {
      var i :| 0 <= i < |order| && order[i] == p;
      FindAt(es, i);
    }
  }

  // ---------------------------------------------------------------- whole steps

  /** All that holds of a dict, apart from its count. */
  ghost predicate DictOk(pairs: Pairs, heads: seq<Link>, first: Link, order: seq<Ptr>, chains: seq<seq<Ptr>>,
                         datas: Datas, held: Held)
  {
    && ListOk(pairs, first, order) && BucketsOk(pairs, heads, chains) && KeysOk(pairs)
    && RefsOk(datas, pairs, order, held)
  }

  function Reffed(datas: Datas, d: Ptr): Datas
    requires d in datas
  {
    datas[d := datas[d].(refs := datas[d].refs + 1)]
  }

  /** The last reference destroys the value. */
  function Unreffed(datas: Datas, d: Ptr): Datas
    requires d in datas
  {
    if datas[d].refs == 1 then datas - {d} else datas[d := datas[d].(refs := datas[d].refs - 1)]
  }

  lemma InsertAll(pairs: Pairs, heads: seq<Link>, first: Link, order: seq<Ptr>, chains: seq<seq<Ptr>>,
                  datas: Datas, held: Held, p: Ptr, key: Key, v: Ptr)
    requires DictOk(pairs, heads, first, order, chains, datas, held)
    requires p !in pairs && Outside(held, v) > 0 && forall q :: q in pairs ==> pairs[q].key != key
    ensures (first.Some? ==> first.value in pairs) && (forall q :: q in order ==> q in pairs)
    ensures 0 <= GetBucket(key, |heads|) < |heads|
    ensures var b := GetBucket(key, |heads|); var u := Inserted(pairs, first, heads[b], p, key, v);
      && DictOk(u, heads[b := Some(p)], Some(p), [p] + order, chains[b := [p] + chains[b]], datas, Lost(held, v))
      && (forall q :: q in [p] + order ==> q in u)
      && Entries([p] + order, u) == Put(Entries(order, pairs), key, v)
  {
    hide BucketOk, ListChain, NoDup, KeysOk, RefsOk, Inserted, Entries, Put, GetBucket;
    BucketsAgree(key, |heads|);
    var b := GetBucket(key, |heads|);
    InsertList(pairs, first, order, heads[b], p, key, v);
    InsertBuckets(pairs, heads, chains, first, p, key, v);
    InsertKeys(pairs, first, heads[b], p, key, v);
    InsertedSame(pairs, first, heads[b], p, key, v);
    InsertedAt(pairs, first, heads[b], p, key, v);
    var u := Inserted(pairs, first, heads[b], p, key, v);
    InsertRefs(datas, pairs, order, held, u, p);
    EntriesInsert(order, pairs, u, p);
  }

  lemma StoreAll(pairs: Pairs, heads: seq<Link>, first: Link, order: seq<Ptr>, chains: seq<seq<Ptr>>,
                 datas: Datas, held: Held, p: Ptr, v: Ptr)
    requires DictOk(pairs, heads, first, order, chains, datas, held) && p in pairs && Outside(held, v) > 0
    ensures (forall q :: q in order ==> q in pairs)
    ensures var u := pairs[p := pairs[p].(value := v)];
      && DictOk(u, heads, first, order, chains, datas, Moved(held, v, pairs[p].value))
      && Entries(order, u) == Put(Entries(order, pairs), pairs[p].key, v)
  {
    hide BucketsOk, ListChain, NoDup, RefsOk, Entries, Put;
    var i :| 0 <= i < |order| && order[i] == p;
    StoreRefs(datas, pairs, order, held, i, v);
    StoreBuckets(pairs, heads, chains, p, v);
    EntriesStore(order, pairs, i, v);
    var u := pairs[p := pairs[p].(value := v)];
    assert u.Keys == pairs.Keys;
    ListUnhashed(pairs, u, first, order);
  }

  lemma DeleteAll(pairs: Pairs, heads: seq<Link>, first: Link, order: seq<Ptr>, chains: seq<seq<Ptr>>,
                  datas: Datas, held: Held, b: nat, i: nat)
    requires DictOk(pairs, heads, first, order, chains, datas, held) && b < |heads| && i < |chains[b]|
    ensures (forall q :: q in order ==> q in pairs) && Stands(pairs, chains[b], i)
    ensures Spliced(HashCut(pairs, chains[b], i), chains[b][i])
    ensures var p := chains[b][i]; var u := Deleted(pairs, chains[b], i);
      exists j: nat :: j < |order| && order[j] == p && (forall q :: q in Cut(order, j) ==> q in u) &&
        DictOk(u, if i == 0 then heads[b := pairs[p].hashNext] else heads,
          if pairs[p].prev.None? then pairs[p].next else first,
          Cut(order, j), chains[b := Cut(chains[b], i)], datas, Gained(held, pairs[p].value)) &&
        Entries(Cut(order, j), u) == Dropped(Entries(order, pairs), pairs[p].key)
  {
    hide BucketOk, ListChain, NoDup, KeysOk, RefsOk, Deleted, Entries, Dropped, GetBucket, Cut, HashCut, Spliced;
    assert BucketOk(pairs, |heads|, b, heads[b], chains[b]);
    ChainAt(pairs, |heads|, b, heads[b], chains[b], i);
    if i > 0 { ChainAt(pairs, |heads|, b, heads[b], chains[b], i - 1); }
    var p := chains[b][i];
    assert p in chains[b];
    var j :| 0 <= j < |order| && order[j] == p;
    Neighbours(pairs, first, order, j);
    FirstPrev(pairs, first, order, j);
    DeleteList(pairs, first, order, chains[b], i, j);
    DeleteBuckets(pairs, heads, chains, b, i);
    DeletedSame(pairs, chains[b], i);
    var u := Deleted(pairs, chains[b], i);
    DeleteKeys(pairs, u);
    DeleteRefs(datas, pairs, order, held, u, j);
    EntriesDelete(order, pairs, u, j);
  }

  lemma FirstPrev(pairs: Pairs, first: Link, order: seq<Ptr>, j: nat)
    requires ListChain(pairs, first, order) && j < |order|
    ensures order[j] in pairs && (pairs[order[j]].prev.None? <==> j == 0)
  {
    assert ListStep(pairs, order, j);
  }

  lemma DeleteKeys(pairs: Pairs, u: Pairs)
    requires KeysOk(pairs) && u.Keys <= pairs.Keys && forall q :: q in u ==> u[q].key == pairs[q].key
    ensures KeysOk(u)
  {
    assert forall q :: q in u ==> q in pairs;
  }

  // ---------------------------------------------------------------- values across a step

  /** References outside are as they were, values keep their bytes, and one is destroyed only by its last reference. */
  ghost predicate Frugal(datas: Datas, held: Held, u: Datas, h: Held) {
    && (forall d :: Outside(h, d) == Outside(held, d))
    && (forall d :: d in u ==> d in datas && u[d].bytes == datas[d].bytes)
    && (forall d :: d in u && u[d].refs == 0 ==> datas[d].refs == 0)
    && (forall d :: d in datas && d !in u ==> datas[d].refs > 0)
  }

  /** Setting a value and letting the old one go; setting the same one again leaves it alive. */
  lemma StoreFrugal(datas: Datas, held: Held, v: Ptr, w: Ptr)
    requires v in datas && w in datas && datas[v].refs >= 0 && datas[w].refs >= 1
    ensures var h := Gained(held, v); var m := Moved(h, v, w); var u := Unreffed(Reffed(datas, v), w);
      v in u && Frugal(datas, held, u, Lost(m, w)) && (v == w ==> u == datas)
  {
    var u := Unreffed(Reffed(datas, v), w);
    if v == w { assert u == datas; }
  }

  lemma AddFrugal(datas: Datas, held: Held, v: Ptr)
    requires v in datas && datas[v].refs >= 0
    ensures v in Reffed(datas, v) && Frugal(datas, held, Reffed(datas, v), Lost(Gained(held, v), v))
  {
  }

  lemma DropFrugal(datas: Datas, held: Held, w: Ptr)
    requires w in datas && datas[w].refs >= 1
    ensures Frugal(datas, held, Unreffed(datas, w), Lost(Gained(held, w), w))
  {
  }

  lemma RefsPositive(datas: Datas, pairs: Pairs, order: seq<Ptr>, held: Held)
    requires RefsOk(datas, pairs, order, held) && forall q :: q in pairs <==> q in order
    ensures forall d :: d in datas ==> datas[d].refs >= 0
    ensures forall p :: p in pairs ==> pairs[p].value in datas && datas[pairs[p].value].refs >= 1
  {
    hide Uses;
    forall p | p in pairs ensures datas[pairs[p].value].refs >= 1 {
      UsedOnce(order, pairs, p);
    }
  }

  lemma CountsPositive(pairs: Pairs, heads: seq<Link>, first: Link, order: seq<Ptr>, chains: seq<seq<Ptr>>,
                       datas: Datas, held: Held)
    requires DictOk(pairs, heads, first, order, chains, datas, held)
    ensures 0 < |heads| < 0x8000_0000 && |chains| == |heads| && (first.Some? ==> first.value in pairs)
    ensures forall d :: d in datas ==> datas[d].refs >= 0
    ensures forall p :: p in pairs ==> pairs[p].value in datas && datas[pairs[p].value].refs >= 1
  {
    hide RefsOk, BucketOk;
    RefsPositive(datas, pairs, order, held);
  }

  lemma UnrefAll(pairs: Pairs, heads: seq<Link>, first: Link, order: seq<Ptr>, chains: seq<seq<Ptr>>,
                 datas: Datas, held: Held, d: Ptr)
    requires DictOk(pairs, heads, first, order, chains, datas, held) && Outside(held, d) > 0
    ensures d in datas && DictOk(pairs, heads, first, order, chains, Unreffed(datas, d), Lost(held, d))
  {
    hide BucketOk, ListChain, KeysOk, NoDup, Uses;
    UnrefRefs(datas, pairs, order, held, d);
    hide RefsOk;
  }

  // ---------------------------------------------------------------- searching a bucket

  /** None of the first `i` pairs of the bucket has the key. */
  ghost predicate Misses(pairs: Pairs, chain: seq<Ptr>, i: nat, key: Key) {
    forall j :: 0 <= j < i <= |chain| ==> chain[j] in pairs && pairs[chain[j]].key != key
  }

  lemma MissNone(pairs: Pairs, size: nat, b: nat, head: Link, chain: seq<Ptr>, key: Key)
    requires 0 < size < 0x8000_0000 && BucketOk(pairs, size, b, head, chain) && GetBucket(key, size) == b
    requires Misses(pairs, chain, |chain|, key)
    ensures forall q :: q in pairs ==> pairs[q].key != key
  {
    hide GetBucket, NoDup, HashChain;
    assert forall q :: q in pairs && GetBucket(pairs[q].key, size) == b ==> q in chain;
  }

  lemma ChainAt(pairs: Pairs, size: nat, b: nat, head: Link, chain: seq<Ptr>, i: nat)
    requires 0 < size < 0x8000_0000 && BucketOk(pairs, size, b, head, chain) && i < |chain|
    ensures chain[i] in pairs && pairs[chain[i]].hashNext == At(chain, i + 1)
  {
    assert HashStep(pairs, chain, i);
  }

  lemma MissStep(pairs: Pairs, chain: seq<Ptr>, i: nat, key: Key)
    requires Misses(pairs, chain, i, key) && i < |chain| && chain[i] in pairs && pairs[chain[i]].key != key
    ensures Misses(pairs, chain, i + 1, key)
  {
  }

  lemma MissStart(pairs: Pairs, size: nat, b: nat, head: Link, chain: seq<Ptr>, key: Key)
    requires 0 < size < 0x8000_0000 && BucketOk(pairs, size, b, head, chain)
    ensures Misses(pairs, chain, 0, key) && head == At(chain, 0)
  {
  }

  // ---------------------------------------------------------------- taking a dict down

  /** The pairs from `i` on are left, with exact reference counts. */
  ghost predicate Remaining(pairs: Pairs, order: seq<Ptr>, i: nat, datas: Datas, held: Held) {
    && i <= |order| && (forall q :: q in pairs <==> q in order[i..])
    && (forall k {:trigger NextStep(pairs, order, k)} :: i <= k < |order| ==> NextStep(pairs, order, k))
    && RefsOk(datas, pairs, order[i..], held)
  }

  ghost predicate NextStep(pairs: Pairs, order: seq<Ptr>, k: nat) {
    k < |order| && order[k] in pairs && pairs[order[k]].next == At(order, k + 1)
  }

  lemma RemainingStart(pairs: Pairs, heads: seq<Link>, first: Link, order: seq<Ptr>, chains: seq<seq<Ptr>>,
                       datas: Datas, held: Held)
    requires DictOk(pairs, heads, first, order, chains, datas, held)
    ensures Remaining(pairs, order, 0, datas, held) && NoDup(order) && first == At(order, 0)
  {
    hide BucketOk, NoDup, RefsOk, At;
    assert order[0..] == order;
    forall k: nat | k < |order| ensures NextStep(pairs, order, k) {
      assert ListStep(pairs, order, k);
    }
  }

  lemma RemainingHead(pairs: Pairs, order: seq<Ptr>, i: nat, datas: Datas, held: Held)
    requires Remaining(pairs, order, i, datas, held) && i < |order|
    ensures order[i] in pairs && pairs[order[i]].next == At(order, i + 1)
  {
    assert NextStep(pairs, order, i);
  }

  lemma RemainingStep(pairs: Pairs, order: seq<Ptr>, i: nat, datas: Datas, held: Held)
    requires Remaining(pairs, order, i, datas, held) && i < |order| && NoDup(order)
    ensures order[i] in pairs && pairs[order[i]].value in datas && datas[pairs[order[i]].value].refs >= 1
    ensures var p := order[i]; var w := pairs[p].value;
      Remaining(pairs - {p}, order, i + 1, Unreffed(datas, w), Lost(Gained(held, w), w))
  {
    hide NoDup, RefsOk;
    var p := order[i];
    RemainingHead(pairs, order, i, datas, held);
    NoDupInit(order, i);
    RemainingRefs(pairs, order[i..], datas, held);
    assert order[i..][1..] == order[i + 1..];
    RemainingLinks(pairs, order, i);
    RemainingKeys(pairs, order[i..]);
  }

  lemma RemainingKeys(pairs: Pairs, rest: seq<Ptr>)
    requires rest != [] && NoDup(rest) && forall q :: q in pairs <==> q in rest
    ensures forall q :: q in pairs - {rest[0]} <==> q in rest[1..]
  {
    assert rest == [rest[0]] + rest[1..];
  }

  lemma RemainingRefs(pairs: Pairs, rest: seq<Ptr>, datas: Datas, held: Held)
    requires rest != [] && NoDup(rest) && (forall q :: q in pairs <==> q in rest) && RefsOk(datas, pairs, rest, held)
    ensures rest[0] in pairs && pairs[rest[0]].value in datas && datas[pairs[rest[0]].value].refs >= 1
    ensures var w := pairs[rest[0]].value;
      RefsOk(Unreffed(datas, w), pairs - {rest[0]}, rest[1..], Lost(Gained(held, w), w))
  {
    hide NoDup, RefsOk;
    var p, u := rest[0], pairs - {rest[0]};
    RefsPositive(datas, pairs, rest, held);
    RemainingKeys(pairs, rest);
    assert Cut(rest, 0) == rest[1..];
    DeleteRefs(datas, pairs, rest, held, u, 0);
    UnrefRefs(datas, u, rest[1..], Gained(held, pairs[p].value), pairs[p].value);
  }

  lemma RemainingLinks(pairs: Pairs, order: seq<Ptr>, i: nat)
    requires i < |order| && NoDup(order) && (forall q :: q in pairs <==> q in order[i..])
    requires forall k {:trigger NextStep(pairs, order, k)} :: i <= k < |order| ==> NextStep(pairs, order, k)
    ensures var u := pairs - {order[i]};
      forall k {:trigger NextStep(u, order, k)} :: i + 1 <= k < |order| ==> NextStep(u, order, k)
  {
    hide NoDup, At;
    var u := pairs - {order[i]};
    forall k | i + 1 <= k < |order| ensures NextStep(u, order, k) {
      assert NextStep(pairs, order, k);
      SuffixHas(order, i, k);
    }
  }

  lemma SuffixHas(order: seq<Ptr>, i: nat, k: nat)
    requires NoDup(order) && i < k < |order|
    ensures order[k] in order[i..] && order[k] != order[i]
  {
    NoDupAt(order, i, k);
    assert order[k] == order[i..][k - i];
  }

  /** Values only lose references, and one that has lost them all is gone. */
  ghost predicate Falling(datas: Datas, u: Datas) {
    forall d :: d in u ==>
      d in datas && u[d] == datas[d].(refs := u[d].refs) && (u[d].refs == 0 ==> datas[d].refs == 0)
  }

  lemma FallingSame(datas: Datas)
    ensures Falling(datas, datas)
  {
  }

  lemma FallingMeaning(datas: Datas, u: Datas)
    requires Falling(datas, u)
    ensures forall d :: d in u ==> d in datas && u[d] == datas[d].(refs := u[d].refs)
    ensures forall d :: d in u && u[d].refs == 0 ==> datas[d].refs == 0
  {
  }

  lemma FallingStep(datas: Datas, u: Datas, w: Ptr)
    requires Falling(datas, u) && w in u && u[w].refs >= 1
    ensures Falling(datas, Unreffed(u, w))
  {
  }

  lemma FrugalSame(datas: Datas, held: Held)
    ensures Frugal(datas, held, datas, held)
  {
  }

  lemma RemainingNone(pairs: Pairs, order: seq<Ptr>, datas: Datas, held: Held)
    requires Remaining(pairs, order, |order|, datas, held)
    ensures pairs == map[] && forall d :: d in datas ==> datas[d].refs == Outside(held, d)
    ensures forall d :: Outside(held, d) > 0 ==> d in datas
  {
    assert order[|order|..] == [];
    assert pairs.Keys == {};
  }
}
