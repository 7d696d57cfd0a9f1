/** `dict_t`: a hash table threaded with a doubly linked list, holding reference-counted values. */
module Dicts {
  import opened Options
  import opened Seqs
  import opened ByteOrder
  import opened Hashing
  import opened Holdings
  import opened DictState
  import opened DictLemmas

  class Dict {
    const members: array<Link>
    var membersList: Link
    var count: int
    var pairs: Pairs
    /** The values in memory; the dict shares them with its users. */
    var datas: Datas
    /** The key made for a value that is set without one. */
    const addressKey: Ptr -> Key

    ghost var order: seq<Ptr>
    ghost var chains: seq<seq<Ptr>>
    ghost var held: Held

    /** Everything but the count. */
    ghost predicate Linked()
      reads this, members
    {
      DictOk(pairs, members[..], membersList, order, chains, datas, held)
    }

    ghost predicate Valid()
      reads this, members
    {
      Linked() && count == |order|
    }

    /** The keys with their values, in list order. */
    ghost function Contents(): (es: seq<(Key, Ptr)>)
      requires Linked()
      reads this, members
    {
      Entries(order, pairs)
    }

    /** What is true of the contents of every dict. */
    lemma Shape()
      requires Linked()
      ensures KeysOnce(Contents()) && |Contents()| == |order|
    {
      hide NoDup;
      EntriesKeysOnce(order, pairs);
    }

    /** `get_new_dict_full`. */
    constructor (size: nat, address: Ptr -> Key)
      requires 0 < size < 0x8000_0000
      ensures Valid() && Contents() == [] && datas == map[] && fresh(members)
      ensures members.Length == size && addressKey == address && forall d :: Outside(held, d) == 0
    {
      members := new Link[size](_ => None);
      membersList, count, pairs, datas, addressKey := None, 0, map[], map[], address;
      order, chains, held := [], seq(size, _ => []), map[];
      new;
      hide GetBucket;
      forall b {:trigger chains[b]} | 0 <= b < size ensures BucketOk(pairs, size, b, members[..][b], chains[b]) {
      }
    }

    // -------------------------------------------------------------- values

    /** A new value, with no references yet. */
    method NewData(bytes: Value) returns (d: Ptr)
      requires Linked()
      modifies this`datas
      ensures d !in old(datas) && datas == old(datas)[d := Data(0, bytes)]
      ensures Linked() && Contents() == old(Contents()) && Outside(held, d) == 0
    {
      hide Uses, BucketsOk, ListChain, NoDup, KeysOk, Entries;
      FreshExists(datas.Keys);
      d :| d !in datas.Keys;
      NewRefs(datas, pairs, order, held, d, bytes);
      datas := datas[d := Data(0, bytes)];
    }

    /** `data_ref`. */
    method DataRef(d: Ptr)
      requires Linked() && d in datas
      modifies this`datas, this`held
      ensures Linked() && Contents() == old(Contents())
      ensures datas == Reffed(old(datas), d) && held == Gained(old(held), d)
    {
      hide Uses, BucketsOk, ListChain, NoDup, KeysOk, Entries, RefsOk;
      RefRefs(datas, pairs, order, held, d);
      datas := datas[d := datas[d].(refs := datas[d].refs + 1)];
      held := Gained(held, d);
    }

    /** `data_unref`: the last reference destroys the value. */
    method DataUnref(d: Ptr)
      requires Linked() && Outside(held, d) > 0
      modifies this`datas, this`held
      ensures Linked() && Contents() == old(Contents())
      ensures d in old(datas) && held == Lost(old(held), d)
      ensures datas == Unreffed(old(datas), d)
    {
      hide DictOk, Entries;
      UnrefAll(pairs, members[..], membersList, order, chains, datas, held, d);
      CountsAt(d);
      Release(d);
      held := Lost(held, d);
    }

    lemma CountsAt(d: Ptr)
      requires Linked() && Outside(held, d) > 0
      ensures d in datas && datas[d].refs >= 1
    {
    }

    method Release(d: Ptr)
      requires d in datas && datas[d].refs >= 1
      modifies this`datas
      ensures datas == Unreffed(old(datas), d)
    {
      var refs := datas[d].refs - 1;
      datas := datas[d := datas[d].(refs := refs)];
      if refs == 0 {
        datas := datas - {d};
        assert datas == old(datas) - {d};
      }
    }

    // -------------------------------------------------------------- lookup

    lemma BucketAt(b: nat)
      requires Linked() && b < members.Length
      ensures |chains| == members.Length < 0x8000_0000 && BucketOk(pairs, members.Length, b, members[b], chains[b])
    {
      hide BucketOk;
      assert members[..][b] == members[b];
    }

    /** `_dict_lookup`. */
    method Lookup(key: Key) returns (p: Link)
      requires Linked()
      ensures p.Some? ==> p.value in pairs && pairs[p.value].key == key
      ensures p.None? ==> forall q :: q in pairs ==> pairs[q].key != key
    {
      hide DictOk, GetBucket, BucketOk, Misses;
      CountsPositive(pairs, members[..], membersList, order, chains, datas, held);
      BucketsAgree(key, members.Length);
      var b := GetBucket(key, members.Length);
      BucketAt(b);
      ghost var chain, i := chains[b], 0;
      MissStart(pairs, members.Length, b, members[b], chain, key);
      var pair := members[b];
      while pair.Some?
        invariant i <= |chain| && pair == At(chain, i) && Misses(pairs, chain, i, key)
        decreases |chain| - i
      {
        ChainAt(pairs, members.Length, b, members[b], chain, i);
        if pairs[pair.value].key == key {
          return pair;
        }
        MissStep(pairs, chain, i, key);
        pair, i := pairs[pair.value].hashNext, i + 1;
      }
      MissNone(pairs, members.Length, b, members[b], chain, key);
      return None;
    }

    /** `dict_get`: the lookup of a finite map. */
    method Get(key: Option<Key>) returns (value: Link)
      requires Linked()
      ensures value == match key { case None => None case Some(k) => Find(Contents(), k) }
    {
      if key.None? {
        return None;
      }
      var p := Lookup(key.value);
      hide NoDup, Find, Entries;
      EntriesFind(order, pairs, key.value);
      return if p.Some? then Some(pairs[p.value].value) else None;
    }

    // -------------------------------------------------------------- set

    /** The key is known: its pair takes the new value before it lets go of the old one. */
    method StoreValue(p: Ptr, v: Ptr)
      requires Linked() && p in pairs && v in datas
      modifies this`pairs, this`datas, this`held
      ensures Linked() && Contents() == Put(old(Contents()), old(pairs[p].key), v)
      ensures v in datas && Frugal(old(datas), old(held), datas, held)
      ensures old(pairs[p].value) == v ==> datas == old(datas)
    {
      hide DictOk, Put, Entries, Frugal, Reffed, Unreffed;
      CountsPositive(pairs, members[..], membersList, order, chains, datas, held);
      ghost var es := Contents();
      var unref := pairs[p].value;
      StoreFrugal(datas, held, v, unref);
      DataRef(v);
      StoreAll(pairs, members[..], membersList, order, chains, datas, held, p, v);
      pairs := pairs[p := pairs[p].(value := v)];
      held := Moved(held, v, unref);
      DataUnref(unref);
    }

    /** The key is new: a pair for it goes in front of its bucket and of the list. */
    method AddPair(key: Key, v: Ptr)
      requires Linked() && v in datas && forall q :: q in pairs ==> pairs[q].key != key
      modifies this, members
      ensures Linked() && Contents() == Put(old(Contents()), key, v) && count == old(count) + 1
      ensures v in datas && Frugal(old(datas), old(held), datas, held) && |order| == |old(order)| + 1
    {
      hide DictOk, Put, Entries, Frugal, GetBucket, SetBucket, Inserted, Reffed;
      CountsPositive(pairs, members[..], membersList, order, chains, datas, held);
      AddFrugal(datas, held, v);
      FreshExists(pairs.Keys);
      var p: Ptr :| p !in pairs.Keys;
      DataRef(v);
      InsertAll(pairs, members[..], membersList, order, chains, datas, held, p, key, v);
      BucketsAgree(key, members.Length);
      var b := SetBucket(key, members.Length);
      LinkPair(p, b, key, v);
      order, chains, held := [p] + order, chains[b := [p] + chains[b]], Lost(held, v);
    }

    method LinkPair(p: Ptr, b: nat, key: Key, v: Ptr)
      requires b < members.Length && p !in pairs && (membersList.Some? ==> membersList.value in pairs)
      modifies this`pairs, this`membersList, this`count, members
      ensures pairs == Inserted(old(pairs), old(membersList), old(members[b]), p, key, v)
      ensures members[..] == old(members[..])[b := Some(p)] && membersList == Some(p) && count == old(count) + 1
    {
      var pair := Pair(members[b], None, membersList, v, key);
      members[b] := Some(p);
      if membersList.Some? {
        pairs := pairs[membersList.value := pairs[membersList.value].(prev := Some(p))];
      }
      pairs := pairs[p := pair];
      membersList := Some(p);
      count := count + 1;
    }

    /** `dict_set`. */
    method Set(key: Option<Key>, value: Link) returns (ret: int)
      requires Linked() && (value.Some? ==> value.value in datas)
      modifies this, members
      ensures Linked() && Frugal(old(datas), old(held), datas, held) && (value.Some? ==> value.value in datas)
      ensures ret == if value.None? then -1 else 0
      ensures value.None? ==> Contents() == old(Contents()) && count == old(count) && |order| == |old(order)|
      ensures value.Some? ==>
        var k := match key { case None => addressKey(value.value) case Some(k) => k };
        && Contents() == Put(old(Contents()), k, value.value)
        && count - old(count) == |Contents()| - |old(Contents())|
    {
      hide DictOk, NoDup, Put, Find, Entries, Replaced;
      if value.None? {
        return -1;
      }
      var k := match key { case None => addressKey(value.value) case Some(k) => k };
      Shape();
      var p := Lookup(k);
      if p.Some? {
        StoreValue(p.value, value.value);
      } else {
        AddPair(k, value.value);
      }
      Shape();
      return 0;
    }

    // -------------------------------------------------------------- delete

    /** `dict_del`; a missing key changes nothing. */
    method Del(key: Option<Key>)
      requires Valid()
      modifies this, members
      ensures Valid() && Frugal(old(datas), old(held), datas, held)
      ensures Contents() == match key { case None => old(Contents()) case Some(k) => Dropped(old(Contents()), k) }
    {
      hide DictOk, Entries, Dropped, Frugal, GetBucket;
      FrugalSame(datas, held);
      if key.None? {
        return;
      }
      CountsPositive(pairs, members[..], membersList, order, chains, datas, held);
      BucketsAgree(key.value, members.Length);
      var b := GetBucket(key.value, members.Length);
      ghost var i;
      var pair, prev;
      pair, prev, i := Walk(key.value, b);
      if pair.Some? {
        Unlink(b, prev, pair.value, i);
      } else {
        Absent(key.value);
      }
    }

    lemma Absent(k: Key)
      requires Linked() && forall q :: q in pairs ==> pairs[q].key != k
      ensures Dropped(Contents(), k) == Contents()
    {
      hide NoDup, Entries, Find;
      EntriesFind(order, pairs, k);
      DropAbsent(Contents(), k);
    }

    /** The search loop of `dict_del`, which keeps the predecessor in the bucket. */
    method Walk(key: Key, b: nat) returns (pair: Link, prev: Link, ghost i: nat)
      requires Linked() && b < members.Length < 0x8000_0000 && b == GetBucket(key, members.Length)
      requires |chains| == members.Length
      ensures pair.Some? ==> i < |chains[b]| && chains[b][i] == pair.value && prev == At(chains[b], i - 1)
      ensures pair.Some? ==> pair.value in pairs && pairs[pair.value].key == key
      ensures pair.None? ==> forall q :: q in pairs ==> pairs[q].key != key
    {
      hide DictOk, GetBucket, BucketOk, Misses;
      BucketAt(b);
      ghost var chain := chains[b];
      MissStart(pairs, members.Length, b, members[b], chain, key);
      pair, prev, i := members[b], None, 0;
      while pair.Some?
        invariant i <= |chain| && pair == At(chain, i) && prev == At(chain, i - 1) && Misses(pairs, chain, i, key)
        decreases |chain| - i
      {
        ChainAt(pairs, members.Length, b, members[b], chain, i);
        if pairs[pair.value].key == key {
          return;
        }
        MissStep(pairs, chain, i, key);
        prev := pair;
        pair, i := pairs[pair.value].hashNext, i + 1;
      }
      MissNone(pairs, members.Length, b, members[b], chain, key);
    }

    method Unlink(b: nat, prev: Link, p: Ptr, ghost i: nat)
      requires Valid() && b < members.Length && |chains| == members.Length && i < |chains[b]|
      requires chains[b][i] == p && prev == At(chains[b], i - 1) && p in pairs
      modifies this, members
      ensures Valid() && Frugal(old(datas), old(held), datas, held)
      ensures Contents() == Dropped(old(Contents()), old(pairs[p].key))
    {
      hide DictOk, Entries, Dropped, Frugal, Cut, Deleted, HashCut, ListCut, Spliced;
      CountsPositive(pairs, members[..], membersList, order, chains, datas, held);
      DeleteAll(pairs, members[..], membersList, order, chains, datas, held, b, i);
      var value := pairs[p].value;
      DropFrugal(datas, held, value);
      ghost var j: nat :| j < |order| && order[j] == p
        && (forall q :: q in Cut(order, j) ==> q in Deleted(pairs, chains[b], i)) &&
        DictOk(Deleted(pairs, chains[b], i), if i == 0 then members[..][b := pairs[p].hashNext] else members[..],
          if pairs[p].prev.None? then pairs[p].next else membersList,
          Cut(order, j), chains[b := Cut(chains[b], i)], datas, Gained(held, pairs[p].value)) &&
        Entries(Cut(order, j), Deleted(pairs, chains[b], i)) == Dropped(Entries(order, pairs), pairs[p].key);
      UnlinkPair(b, prev, p, i);
      order, chains, held := Cut(order, j), chains[b := Cut(chains[b], i)], Gained(held, value);
      count := count - 1;
      DataUnref(value);
    }

    /** The pointer changes of `dict_del`. */
    method UnlinkPair(b: nat, prev: Link, p: Ptr, ghost i: nat)
      requires b < members.Length && |chains| == members.Length && Stands(pairs, chains[b], i)
      requires chains[b][i] == p && prev == At(chains[b], i - 1) && Spliced(HashCut(pairs, chains[b], i), p)
      modifies this`pairs, this`membersList, members
      ensures pairs == Deleted(old(pairs), chains[b], i)
      ensures members[..] == if i == 0 then old(members[..])[b := old(pairs[p]).hashNext] else old(members[..])
      ensures membersList == if old(pairs[p]).prev.None? then old(pairs[p]).next else old(membersList)
    {
      if prev.Some? {
        pairs := pairs[prev.value := pairs[prev.value].(hashNext := pairs[p].hashNext)];
      } else {
        members[b] := pairs[p].hashNext;
      }
      assert pairs == HashCut(old(pairs), chains[b], i);
      if pairs[p].prev.Some? {
        pairs := pairs[pairs[p].prev.value := pairs[pairs[p].prev.value].(next := pairs[p].next)];
      } else {
        membersList := pairs[p].next;
      }
      if pairs[p].next.Some? {
        pairs := pairs[pairs[p].next.value := pairs[pairs[p].next.value].(prev := pairs[p].prev)];
      }
      pairs := pairs - {p};
    }

    // -------------------------------------------------------------- destroy

    /** `dict_destroy`: every pair gives up its reference, and only the references outside remain. */
    method Destroy()
      requires Linked()
      modifies this`pairs, this`datas, this`held
      ensures pairs == map[] && (forall d :: Outside(held, d) == old(Outside(held, d)))
      ensures forall d :: d in datas ==> d in old(datas) && datas[d] == old(datas[d]).(refs := Outside(held, d))
      ensures forall d :: d in old(datas) && old(Outside(held, d)) > 0 ==> d in datas
      ensures forall d :: d in old(datas) && old(datas[d].refs) > 0 && old(Outside(held, d)) == 0 ==> d !in datas
    {
      hide DictOk, Uses, NoDup, RefsOk, Unreffed, Remaining, Falling;
      RemainingStart(pairs, members[..], membersList, order, chains, datas, held);
      assert Falling(datas, datas) by { FallingSame(datas); }
      var pair, prev := membersList, membersList;
      ghost var i: nat := 0;
      while prev.Some?
        invariant Remaining(pairs, order, i, datas, held) && i <= |order| && pair == prev == At(order, i)
        invariant Falling(old(datas), datas) && (forall d :: Outside(held, d) == old(Outside(held, d)))
        decreases |order| - i
      {
        RemainingHead(pairs, order, i, datas, held);
        RemainingStep(pairs, order, i, datas, held);
        ghost var w := pairs[prev.value].value;
        SameOutside(held, w);
        FallingStep(old(datas), datas, w);
        pair := pairs[pair.value].next;
        Release(pairs[prev.value].value);
        held := Lost(Gained(held, w), w);
        pairs := pairs - {prev.value};
        prev := pair;
        i := i + 1;
      }
      RemainingNone(pairs, order, datas, held);
      FallingMeaning(old(datas), datas);
    }
  }
}
