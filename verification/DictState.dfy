/**
The links of a dict: pairs chained by `hash_next` from their bucket and doubly linked from
`members_list`. Pairs and values live in stores whose keys are their addresses; freeing one removes it.
*/
module DictState {
  import opened Options
  import opened Seqs
  import opened ByteOrder
  import opened Hashing
  import opened Holdings

  type Link = Option<Ptr>

  datatype Pair = Pair(hashNext: Link, prev: Link, next: Link, value: Ptr, key: Key)

  /** The bytes of a value, with a length that fits `int32_t`. */
  type Value = s: seq<Byte> | |s| < 0x8000_0000 witness []

  datatype Data = Data(refs: int, bytes: Value)

  type Pairs = map<Ptr, Pair>
  type Datas = map<Ptr, Data>

  // ---------------------------------------------------------------- chains

  ghost predicate HashChain(pairs: Pairs, head: Link, s: seq<Ptr>) {
    head == At(s, 0) && forall i {:trigger HashStep(pairs, s, i)} :: 0 <= i < |s| ==> HashStep(pairs, s, i)
  }

  ghost predicate HashStep(pairs: Pairs, s: seq<Ptr>, i: int) {
    0 <= i < |s| && s[i] in pairs && pairs[s[i]].hashNext == At(s, i + 1)
  }

  ghost predicate ListChain(pairs: Pairs, head: Link, s: seq<Ptr>) {
    head == At(s, 0) && forall i {:trigger ListStep(pairs, s, i)} :: 0 <= i < |s| ==> ListStep(pairs, s, i)
  }

  ghost predicate ListStep(pairs: Pairs, s: seq<Ptr>, i: int) {
    0 <= i < |s| && s[i] in pairs && pairs[s[i]].next == At(s, i + 1) && pairs[s[i]].prev == At(s, i - 1)
  }

  /** `s` without its element at `i`. */
  function Cut<T>(s: seq<T>, i: nat): (r: seq<T>)
    requires i < |s|
    ensures |r| == |s| - 1
  {
    s[..i] + s[i + 1..]
  }

  lemma CutAt(s: seq<Ptr>, i: nat, k: int)
    requires i < |s|
    ensures At(Cut(s, i), k) == At(s, if k < i then k else k + 1)
    ensures 0 <= k < |s| - 1 ==> Cut(s, i)[k] == s[if k < i then k else k + 1]
  {
  }

  lemma CutRemoves<T>(s: seq<T>, i: nat)
    requires NoDup(s) && i < |s|
    ensures Cut(s, i) == Remove(s, s[i])
  {
    hide NoDup, Remove;
    var a, x, b := s[..i], s[i], s[i + 1..];
    assert s == a + [x] + b;
    NoDupMiddle(a, x, b);
    RemoveMiddle(a, x, b);
  }

  lemma CutNoDup<T>(s: seq<T>, i: nat)
    requires NoDup(s) && i < |s|
    ensures NoDup(Cut(s, i)) && forall x :: x in Cut(s, i) <==> x in s && x != s[i]
  {
    hide NoDup, Remove, Cut;
    CutRemoves(s, i);
  }

  // ---------------------------------------------------------------- what holds of a dict

  /** The list holds every pair once. */
  ghost predicate ListOk(pairs: Pairs, first: Link, order: seq<Ptr>) {
    && ListChain(pairs, first, order) && NoDup(order)
    && forall p :: p in pairs <==> p in order
  }

  ghost predicate BucketOk(pairs: Pairs, size: nat, b: nat, head: Link, chain: seq<Ptr>)
    requires 0 < size < 0x8000_0000
  {
    && HashChain(pairs, head, chain) && NoDup(chain)
    && forall p :: p in chain <==> p in pairs && GetBucket(pairs[p].key, size) == b
  }

  /** Each pair is in its computed bucket, once, and in no other. */
  ghost predicate BucketsOk(pairs: Pairs, heads: seq<Link>, chains: seq<seq<Ptr>>) {
    && 0 < |heads| == |chains| && |heads| < 0x8000_0000
    && forall b {:trigger chains[b]} :: 0 <= b < |heads| ==> BucketOk(pairs, |heads|, b, heads[b], chains[b])
  }

  ghost predicate KeysOk(pairs: Pairs) {
    forall p, q :: p in pairs && q in pairs && pairs[p].key == pairs[q].key ==> p == q
  }

  /** How many of the listed pairs hold `d`. */
  ghost function Uses(order: seq<Ptr>, pairs: Pairs, d: Ptr): nat {
    if order == [] then 0
    else (if order[0] in pairs && pairs[order[0]].value == d then 1 else 0) + Uses(order[1..], pairs, d)
  }

  ghost predicate CountsOk(datas: Datas, pairs: Pairs, order: seq<Ptr>, held: Held) {
    forall d :: d in datas ==> datas[d].refs == Uses(order, pairs, d) + Outside(held, d)
  }

  /** Reference counts are exact: pairs holding the value, and references outside. */
  ghost predicate RefsOk(datas: Datas, pairs: Pairs, order: seq<Ptr>, held: Held) {
    && (forall p :: p in pairs ==> pairs[p].value in datas)
    && CountsOk(datas, pairs, order, held)
    && (forall d :: Outside(held, d) > 0 ==> d in datas)
  }

  // ---------------------------------------------------------------- the map a dict stands for

  ghost function Entries(order: seq<Ptr>, pairs: Pairs): seq<(Key, Ptr)>
    requires forall p :: p in order ==> p in pairs
  {
    seq(|order|, i requires 0 <= i < |order| => (pairs[order[i]].key, pairs[order[i]].value))
  }

  ghost predicate KeysOnce<V>(es: seq<(Key, V)>) {
    forall i, j :: 0 <= i < j < |es| ==> es[i].0 != es[j].0
  }

  function Find<V>(es: seq<(Key, V)>, k: Key): Option<V> {
    if es == [] then None else if es[0].0 == k then Some(es[0].1) else Find(es[1..], k)
  }

  /** A new key goes to the front; a known one keeps its place. */
  function Put<V>(es: seq<(Key, V)>, k: Key, v: V): seq<(Key, V)> {
    if Find(es, k).None? then [(k, v)] + es else Replaced(es, k, v)
  }

  function Replaced<V>(es: seq<(Key, V)>, k: Key, v: V): seq<(Key, V)> {
    if es == [] then [] else if es[0].0 == k then [(k, v)] + es[1..] else [es[0]] + Replaced(es[1..], k, v)
  }

  function Dropped<V>(es: seq<(Key, V)>, k: Key): seq<(Key, V)> {
    if es == [] then [] else if es[0].0 == k then es[1..] else [es[0]] + Dropped(es[1..], k)
  }

  lemma {:induction false} FindMeaning<V>(es: seq<(Key, V)>, k: Key)
    ensures Find(es, k).None? <==> forall i :: 0 <= i < |es| ==> es[i].0 != k
    ensures Find(es, k).Some? ==> exists i :: 0 <= i < |es| && es[i] == (k, Find(es, k).value)
  {
    if es != [] {
      FindMeaning(es[1..], k);
      assert forall i :: 1 <= i < |es| ==> es[i] == es[1..][i - 1];
      if es[0].0 == k {
        assert es[0] == (k, es[0].1);
      } else if Find(es, k).Some? {
        var i :| 0 <= i < |es| - 1 && es[1..][i] == (k, Find(es, k).value);
        assert es[i + 1] == (k, Find(es, k).value);
      }
    }
  }

  lemma {:induction false} FindAt<V>(es: seq<(Key, V)>, i: nat)
    requires KeysOnce(es) && i < |es|
    ensures Find(es, es[i].0) == Some(es[i].1)
    ensures forall v :: Replaced(es, es[i].0, v) == es[i := (es[i].0, v)]
    ensures Dropped(es, es[i].0) == Cut(es, i)
    decreases i
  {
    if i > 0 {
      var rest := es[1..];
      assert forall j :: 0 <= j < |rest| ==> rest[j] == es[j + 1];
      FindAt(rest, i - 1);
      assert rest[i - 1] == es[i] && es[0].0 != es[i].0;
      forall v ensures Replaced(es, es[i].0, v) == es[i := (es[i].0, v)] {
        assert Replaced(rest, es[i].0, v) == rest[i - 1 := (es[i].0, v)];
        assert [es[0]] + rest[i - 1 := (es[i].0, v)] == es[i := (es[i].0, v)];
      }
      assert [es[0]] + Cut(rest, i - 1) == Cut(es, i);
    } else {
      forall v ensures Replaced(es, es[0].0, v) == es[0 := (es[0].0, v)] {
        assert [(es[0].0, v)] + es[1..] == es[0 := (es[0].0, v)];
      }
      assert Cut(es, 0) == es[1..];
    }
  }

  /** The entries answer as a finite map does: after a put, the new value there and the old ones elsewhere. */
  lemma {:induction false} FindPut<V>(es: seq<(Key, V)>, k: Key, v: V, j: Key)
    ensures Find(Put(es, k, v), j) == if j == k then Some(v) else Find(es, j)
  {
    if Find(es, k).None? {
      assert Put(es, k, v)[1..] == es;
    } else {
      FindReplaced(es, k, v, j);
    }
  }

  lemma {:induction false} FindReplaced<V>(es: seq<(Key, V)>, k: Key, v: V, j: Key)
    requires Find(es, k).Some?
    ensures Find(Replaced(es, k, v), j) == if j == k then Some(v) else Find(es, j)
  {
    var r := Replaced(es, k, v);
    if es[0].0 == k {
      assert r[1..] == es[1..];
    } else {
      FindReplaced(es[1..], k, v, j);
      assert r[1..] == Replaced(es[1..], k, v);
    }
  }

  /** After a delete, the key is gone and the others answer as before. */
  lemma {:induction false} FindDropped<V>(es: seq<(Key, V)>, k: Key, j: Key)
    requires KeysOnce(es)
    ensures Find(Dropped(es, k), j) == if j == k then None else Find(es, j)
  {
    if es != [] {
      assert forall i :: 1 <= i < |es| ==> es[i] == es[1..][i - 1];
      if es[0].0 == k {
        FindMeaning(es[1..], k);
      } else {
        FindDropped(es[1..], k, j);
        assert Dropped(es, k)[1..] == Dropped(es[1..], k);
      }
    }
  }

  lemma KeysOnceCons<V>(es: seq<(Key, V)>, k: Key, v: V)
    requires KeysOnce(es) && forall i :: 0 <= i < |es| ==> es[i].0 != k
    ensures KeysOnce([(k, v)] + es)
  {
    var r := [(k, v)] + es;
    forall i, j | 0 <= i < j < |r| ensures r[i].0 != r[j].0 {
      assert r[j] == es[j - 1];
      if i > 0 { assert r[i] == es[i - 1]; }
    }
  }

  lemma KeysOnceStore<V>(es: seq<(Key, V)>, i: nat, v: V)
    requires KeysOnce(es) && i < |es|
    ensures KeysOnce(es[i := (es[i].0, v)])
  {
  }

  /** Keys stay distinct, so there is one value for each. */
  lemma KeysOncePut<V>(es: seq<(Key, V)>, k: Key, v: V)
    requires KeysOnce(es)
    ensures KeysOnce(Put(es, k, v)) && |Put(es, k, v)| == |es| + (if Find(es, k).None? then 1 else 0)
  {
    hide KeysOnce, Replaced, Find;
    FindMeaning(es, k);
    if Find(es, k).Some? {
      var i :| 0 <= i < |es| && es[i] == (k, Find(es, k).value);
      FindAt(es, i);
      KeysOnceStore(es, i, v);
    } else {
      KeysOnceCons(es, k, v);
    }
  }

  lemma CutKeys<V>(es: seq<(Key, V)>, i: nat)
    requires KeysOnce(es) && i < |es|
    ensures KeysOnce(Cut(es, i))
  {
    var r := Cut(es, i);
    forall j, k | 0 <= j < k < |r| ensures r[j].0 != r[k].0 {
      assert r[j] == es[if j < i then j else j + 1] && r[k] == es[if k < i then k else k + 1];
    }
  }

  lemma KeysOnceDropped<V>(es: seq<(Key, V)>, k: Key)
    requires KeysOnce(es)
    ensures KeysOnce(Dropped(es, k)) && |Dropped(es, k)| == |es| - (if Find(es, k).Some? then 1 else 0)
  {
    FindMeaning(es, k);
    if Find(es, k).Some? {
      var i :| 0 <= i < |es| && es[i] == (k, Find(es, k).value);
      FindAt(es, i);
      CutKeys(es, i);
    } else {
      DropAbsent(es, k);
    }
  }

  lemma {:induction false} DropAbsent<V>(es: seq<(Key, V)>, k: Key)
    requires Find(es, k).None?
    ensures Dropped(es, k) == es
  {
    if es != [] {
      DropAbsent(es[1..], k);
      assert es == [es[0]] + es[1..];
    }
  }
}
