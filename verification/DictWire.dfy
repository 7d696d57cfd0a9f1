/**
The wire format of a dict: a count, then for each pair the lengths of key and value, the key with its NUL
and the value. `dict_serialize` prints it, `dict_unserialize` parses it back.
*/
module DictWire {
  import opened Options
  import opened Seqs
  import opened ByteOrder
  import opened Buffers
  import opened Hashing
  import opened Holdings
  import opened DictState
  import opened DictLemmas
  import opened Dicts

  type Item = (Key, Value)

  // ---------------------------------------------------------------- printing

  function ItemWire(little: bool, e: Item): (s: seq<Byte>)
    ensures |s| == 9 + |e.0| + |e.1|
  {
    Put4(little, |e.0|) + Put4(little, |e.1|) + e.0 + [0] + e.1
  }

  function ItemsWire(little: bool, es: seq<Item>): seq<Byte> {
    if es == [] then [] else ItemWire(little, es[0]) + ItemsWire(little, es[1..])
  }

  function Wire(little: bool, es: seq<Item>): seq<Byte>
    requires |es| < 0x8000_0000
  {
    Put4(little, |es|) + ItemsWire(little, es)
  }

  // ---------------------------------------------------------------- parsing

  /**
  `Undersized` and `BadCount` are the -1 returns; the items parsed before stay in the dict. A negative
  length or a key without its NUL takes the cursor out of the buffer: `Astray`, where nothing is known.
  */
  datatype Outcome = Parsed | Undersized | BadCount | Astray

  datatype Parse = Parse(items: seq<Item>, outcome: Outcome)

  function SignedAt(little: bool, buf: seq<Byte>, pos: nat): int
    requires pos + 4 <= |buf|
  {
    Int32(Get4(little, buf[pos..pos + 4]))
  }

  /** One round of the loop of `dict_unserialize`: the item at `pos` and where the next one starts. */
  datatype Round = Round(item: Item, next: nat) | Stop(outcome: Outcome)

  function ItemAt(little: bool, buf: seq<Byte>, pos: nat): (r: Round)
    requires pos <= |buf| < 0x8000_0000
    ensures r.Round? ==> pos + 9 <= r.next <= |buf|
    ensures r.Stop? ==> r.outcome in {Undersized, Astray}
  {
    if pos + 8 > |buf| then Stop(Undersized)
    else
      var keylen, vallen := SignedAt(little, buf, pos), SignedAt(little, buf, pos + 4);
      if keylen < 0 then Stop(Astray)
      else if pos + 8 + keylen > |buf| then Stop(Undersized)
      else if vallen < 0 then Stop(Astray)
      else if pos + 9 + keylen + vallen > |buf| then Stop(Undersized)
      else
        match StringAt(buf, pos + 8)
        case None => Stop(Astray)
        case Some(key) =>
          Round((key, buf[pos + 9 + keylen..pos + 9 + keylen + vallen]), pos + 9 + keylen + vallen)
  }

  function ItemsAt(little: bool, buf: seq<Byte>, pos: nat, n: nat): Parse
    requires pos <= |buf| < 0x8000_0000
    decreases n
  {
    if n == 0 then Parse([], Parsed)
    else
      match ItemAt(little, buf, pos)
      case Stop(why) => Parse([], why)
      case Round(e, next) => var rest := ItemsAt(little, buf, next, n - 1); Parse([e] + rest.items, rest.outcome)
  }

  function Unwire(little: bool, buf: seq<Byte>): Parse
    requires |buf| < 0x8000_0000
  {
    if |buf| < 4 then Parse([], Undersized)
    else if SignedAt(little, buf, 0) < 0 then Parse([], BadCount)
    else ItemsAt(little, buf, 4, SignedAt(little, buf, 0))
  }

  // ---------------------------------------------------------------- parsing undoes printing

  lemma SignedPut(little: bool, a: seq<Byte>, n: nat, b: seq<Byte>)
    requires n < 0x8000_0000
    ensures SignedAt(little, a + Put4(little, n) + b, |a|) == n
  {
    hide Put4, Get4;
    GetPut4(little, n);
    assert (a + Put4(little, n) + b)[|a|..|a| + 4] == Put4(little, n);
  }

  lemma ItemLengths(little: bool, a: seq<Byte>, e: Item, b: seq<Byte>)
    ensures var buf := a + ItemWire(little, e) + b;
      SignedAt(little, buf, |a|) == |e.0| && SignedAt(little, buf, |a| + 4) == |e.1|
  {
    hide Put4, SignedAt;
    var k, v, rest := Put4(little, |e.0|), Put4(little, |e.1|), e.0 + [0] + e.1 + b;
    var buf := a + ItemWire(little, e) + b;
    assert ItemWire(little, e) == k + v + (e.0 + [0] + e.1);
    assert buf == a + k + (v + rest);
    SignedPut(little, a, |e.0|, v + rest);
    assert buf == (a + k) + v + rest;
    SignedPut(little, a + k, |e.1|, rest);
  }

  lemma ItemKey(little: bool, a: seq<Byte>, e: Item, b: seq<Byte>)
    ensures StringAt(a + ItemWire(little, e) + b, |a| + 8) == Some(e.0)
  {
    hide Put4, StringAt;
    var lens := Put4(little, |e.0|) + Put4(little, |e.1|);
    assert a + ItemWire(little, e) + b == (a + lens) + e.0 + [0] + (e.1 + b);
    StringPut(a + lens, e.0, e.1 + b);
  }

  lemma ItemValue(little: bool, a: seq<Byte>, e: Item, b: seq<Byte>)
    ensures var buf, from := a + ItemWire(little, e) + b, |a| + 9 + |e.0|; buf[from..from + |e.1|] == e.1
  {
    hide Put4;
    var front := Put4(little, |e.0|) + Put4(little, |e.1|) + e.0 + [0];
    assert ItemWire(little, e) == front + e.1;
    assert a + ItemWire(little, e) + b == (a + front) + e.1 + b;
  }

  lemma ItemPut(little: bool, a: seq<Byte>, e: Item, b: seq<Byte>)
    requires |a + ItemWire(little, e) + b| < 0x8000_0000
    ensures ItemAt(little, a + ItemWire(little, e) + b, |a|) == Round(e, |a + ItemWire(little, e)|)
  {
    hide ItemWire, SignedAt, StringAt;
    ItemLengths(little, a, e, b);
    ItemKey(little, a, e, b);
    ItemValue(little, a, e, b);
  }

  lemma {:induction false} ItemsPut(little: bool, a: seq<Byte>, es: seq<Item>)
    requires |a + ItemsWire(little, es)| < 0x8000_0000
    ensures ItemsAt(little, a + ItemsWire(little, es), |a|, |es|) == Parse(es, Parsed)
    decreases |es|
  {
    hide ItemWire, ItemAt;
    if es != [] {
      var first, rest := ItemWire(little, es[0]), ItemsWire(little, es[1..]);
      assert a + ItemsWire(little, es) == a + first + rest == (a + first) + rest;
      ItemPut(little, a, es[0], rest);
      ItemsPut(little, a + first, es[1..]);
      assert [es[0]] + es[1..] == es;
    }
  }

  /** Parsing what was printed gives the items back. */
  lemma UnwireWire(little: bool, es: seq<Item>)
    requires |es| < 0x8000_0000 && |Wire(little, es)| < 0x8000_0000
    ensures Unwire(little, Wire(little, es)) == Parse(es, Parsed)
  {
    hide Put4, SignedAt, ItemsAt, ItemsWire;
    assert [] + Put4(little, |es|) + ItemsWire(little, es) == Wire(little, es);
    SignedPut(little, [], |es|, ItemsWire(little, es));
    ItemsPut(little, Put4(little, |es|), es);
  }

  /** An item of which the end is missing. */
  lemma ItemCut(little: bool, a: seq<Byte>, e: Item, m: nat)
    requires m < |ItemWire(little, e)| && |a| + m < 0x8000_0000
    ensures ItemAt(little, a + ItemWire(little, e)[..m], |a|) == Stop(Undersized)
  {
    if m >= 8 {
      var w := a + ItemWire(little, e) + [];
      var buf := a + ItemWire(little, e)[..m];
      assert w[|a|..|a| + 4] == buf[|a|..|a| + 4] && w[|a| + 4..|a| + 8] == buf[|a| + 4..|a| + 8];
      ItemLengths(little, a, e, []);
    }
  }

  lemma {:induction false} ItemsCut(little: bool, a: seq<Byte>, es: seq<Item>, k: nat, m: nat)
    requires k < |es| && |ItemsWire(little, es[..k])| <= m < |ItemsWire(little, es[..k + 1])|
    requires m <= |ItemsWire(little, es)| && |a| + m < 0x8000_0000
    ensures ItemsAt(little, a + ItemsWire(little, es)[..m], |a|, |es|) == Parse(es[..k], Undersized)
    decreases k
  {
    hide ItemWire, ItemAt;
    var first, rest := ItemWire(little, es[0]), ItemsWire(little, es[1..]);
    assert es[..k + 1][0] == es[0] && es[..k + 1][1..] == es[1..][..k];
    if k == 0 {
      assert es[1..][..k] == [];
      assert (first + rest)[..m] == first[..m];
      ItemCut(little, a, es[0], m);
    } else {
      assert es[..k][0] == es[0] && es[..k][1..] == es[1..][..k - 1];
      var n := m - |first|;
      assert a + (first + rest)[..m] == a + first + rest[..n] == (a + first) + rest[..n];
      ItemPut(little, a, es[0], rest[..n]);
      ItemsCut(little, a + first, es[1..], k - 1, n);
      assert [es[0]] + es[1..][..k - 1] == es[..k];
    }
  }

  /** How many items are whole within `m` bytes. */
  lemma {:induction false} WholeItems(little: bool, es: seq<Item>, m: nat, k: nat) returns (j: nat)
    requires k <= |es| && m < |ItemsWire(little, es[..k])|
    ensures j < k && |ItemsWire(little, es[..j])| <= m < |ItemsWire(little, es[..j + 1])|
    decreases k
  {
    hide ItemsWire;
    assert k > 0 by { assert es[..0] == []; NoItems(little); }
    if m < |ItemsWire(little, es[..k - 1])| {
      j := WholeItems(little, es, m, k - 1);
    } else {
      j := k - 1;
    }
  }

  /** A wire form cut short is refused, and what has been parsed are the items that are whole. */
  lemma CutShort(little: bool, es: seq<Item>, n: nat) returns (k: nat)
    requires |es| < 0x8000_0000 && n < |Wire(little, es)| && n < 0x8000_0000
    ensures k <= |es| && Unwire(little, Wire(little, es)[..n]) == Parse(es[..k], Undersized)
    ensures if n < 4 then k == 0
      else k < |es| && 4 + |ItemsWire(little, es[..k])| <= n < 4 + |ItemsWire(little, es[..k + 1])|
  {
    hide Put4, SignedAt, ItemsAt, ItemsWire;
    k := 0;
    if n >= 4 {
      var head, body, m := Put4(little, |es|), ItemsWire(little, es), n - 4;
      assert es[..|es|] == es;
      k := WholeItems(little, es, m, |es|);
      assert Wire(little, es)[..n] == head + body[..m] == [] + head + body[..m];
      SignedPut(little, [], |es|, body[..m]);
      ItemsCut(little, head, es, k, m);
    }
  }

  // ---------------------------------------------------------------- filling a dict

  function PutAll<V>(es: seq<(Key, V)>, items: seq<(Key, V)>): seq<(Key, V)>
    decreases |items|
  {
    if items == [] then es else PutAll(Put(es, items[0].0, items[0].1), items[1..])
  }

  /** Items with new keys end up in front, last one first. */
  lemma {:induction false} PutAllNew<V>(es: seq<(Key, V)>, items: seq<(Key, V)>)
    requires KeysOnce(items) && forall i :: 0 <= i < |items| ==> Find(es, items[i].0).None?
    ensures PutAll(es, items) == Reversed(items) + es
    decreases |items|
  {
    hide Find;
    if items == [] {
      assert [] + es == es;
    } else {
      var e, rest := items[0], items[1..];
      assert Put(es, e.0, e.1) == [e] + es;
      forall i | 0 <= i < |rest| ensures Find([e] + es, rest[i].0).None? {
        assert rest[i] == items[i + 1];
        FindCons(e, es, rest[i].0);
      }
      PutAllNew([e] + es, rest);
      assert Reversed(rest) + ([e] + es) == (Reversed(rest) + [e]) + es;
    }
  }

  lemma FindCons<V>(e: (Key, V), es: seq<(Key, V)>, k: Key)
    ensures Find([e] + es, k) == if e.0 == k then Some(e.1) else Find(es, k)
  {
    assert ([e] + es)[1..] == es;
  }

  lemma PutAllFresh<V>(items: seq<(Key, V)>)
    requires KeysOnce(items)
    ensures PutAll([], items) == Reversed(items)
  {
    PutAllNew([], items);
    assert Reversed(items) + [] == Reversed(items);
  }

  lemma ReversedKeys<V>(es: seq<(Key, V)>)
    requires KeysOnce(es)
    ensures KeysOnce(Reversed(es))
  {
    var r := Reversed(es);
    forall i, j | 0 <= i < j < |r| ensures r[i].0 != r[j].0 {
      ReversedAt(es, i);
      ReversedAt(es, j);
    }
  }

  /** One round trip gives the same map in reverse order, and a second one the same bytes again. */
  lemma RoundTrips(little: bool, es: seq<Item>)
    requires KeysOnce(es) && |es| < 0x8000_0000 && |Wire(little, es)| < 0x8000_0000
    ensures var once := PutAll([], Unwire(little, Wire(little, es)).items);
      && once == Reversed(es) && (forall k :: Find(once, k) == Find(es, k)) && KeysOnce(once)
      && |Wire(little, once)| == |Wire(little, es)|
      && var twice := PutAll([], Unwire(little, Wire(little, once)).items);
      twice == es && Wire(little, twice) == Wire(little, es)
  {
    hide Wire, Unwire, KeysOnce, Find, Reversed;
    UnwireWire(little, es);
    PutAllFresh(es);
    var once := Reversed(es);
    ReversedKeys(es);
    WireReversed(little, es);
    forall k ensures Find(once, k) == Find(es, k) { FindReversed(es, k); }
    UnwireWire(little, once);
    PutAllFresh(once);
    ReversedTwice(es);
  }

  lemma FindReversed<V>(es: seq<(Key, V)>, k: Key)
    requires KeysOnce(es)
    ensures Find(Reversed(es), k) == Find(es, k)
  {
    hide Find, Reversed;
    var r := Reversed(es);
    ReversedKeys(es);
    FindMeaning(es, k);
    FindMeaning(r, k);
    if Find(es, k).Some? {
      var i :| 0 <= i < |es| && es[i] == (k, Find(es, k).value);
      ReversedAt(es, |es| - 1 - i);
      FindAt(r, |es| - 1 - i);
    } else {
      forall i | 0 <= i < |r| ensures r[i].0 != k { ReversedAt(es, i); }
    }
  }

  lemma {:induction false} ItemsWireReversed(little: bool, es: seq<Item>)
    ensures |ItemsWire(little, Reversed(es))| == |ItemsWire(little, es)|
  {
    hide ItemWire;
    if es != [] {
      ItemsWireReversed(little, es[1..]);
      ItemsWireJoin(little, Reversed(es[1..]), es[0]);
    }
  }

  lemma WireReversed(little: bool, es: seq<Item>)
    requires |es| < 0x8000_0000
    ensures |Wire(little, Reversed(es))| == |Wire(little, es)|
  {
    ItemsWireReversed(little, es);
  }

  // ---------------------------------------------------------------- dicts and their items

  /** Keys with the bytes of their values. */
  ghost function Items(es: seq<(Key, Ptr)>, datas: Datas): (r: seq<Item>)
    requires forall i :: 0 <= i < |es| ==> es[i].1 in datas
    ensures |r| == |es|
  {
    seq(|es|, i requires 0 <= i < |es| => (es[i].0, datas[es[i].1].bytes))
  }

  lemma {:induction false} ItemsFind(es: seq<(Key, Ptr)>, datas: Datas, k: Key)
    requires forall i :: 0 <= i < |es| ==> es[i].1 in datas
    ensures Find(Items(es, datas), k).None? <==> Find(es, k).None?
  {
    FindMeaning(es, k);
    FindMeaning(Items(es, datas), k);
    var r := Items(es, datas);
    assert forall i :: 0 <= i < |es| ==> r[i].0 == es[i].0;
  }

  /** Setting a value changes the items as it changes the entries. */
  lemma {:induction false} ItemsReplaced(es: seq<(Key, Ptr)>, datas: Datas, k: Key, v: Ptr)
    requires (forall i :: 0 <= i < |es| ==> es[i].1 in datas) && v in datas
    ensures forall i :: 0 <= i < |Replaced(es, k, v)| ==> Replaced(es, k, v)[i].1 in datas
    ensures Items(Replaced(es, k, v), datas) == Replaced(Items(es, datas), k, datas[v].bytes)
  {
    if es != [] {
      var r := Items(es, datas);
      assert r[1..] == Items(es[1..], datas);
      ItemsReplaced(es[1..], datas, k, v);
    }
  }

  lemma ItemsPutValue(es: seq<(Key, Ptr)>, datas: Datas, k: Key, v: Ptr)
    requires (forall i :: 0 <= i < |es| ==> es[i].1 in datas) && v in datas
    ensures forall i :: 0 <= i < |Put(es, k, v)| ==> Put(es, k, v)[i].1 in datas
    ensures Items(Put(es, k, v), datas) == Put(Items(es, datas), k, datas[v].bytes)
  {
    hide Find, Replaced;
    ItemsFind(es, datas, k);
    if Find(es, k).None? {
      assert Items([(k, v)] + es, datas) == [(k, datas[v].bytes)] + Items(es, datas);
    } else {
      ItemsReplaced(es, datas, k, v);
    }
  }

  /** A dict's values are live. */
  lemma ValuesLive(d: Dict)
    requires d.Linked()
    ensures forall i :: 0 <= i < |d.Contents()| ==> d.Contents()[i].1 in d.datas
  {
    hide ListChain, BucketsOk, NoDup, KeysOk, Uses;
    forall i | 0 <= i < |d.order| ensures d.order[i] in d.pairs {
      assert d.order[i] in d.order;
    }
  }

  /** What a dict would put on the wire, in list order. */
  ghost function Stored(d: Dict): (r: seq<Item>)
    requires d.Linked()
    reads d, d.members
    ensures |r| == |d.order|
  {
    ValuesLive(d);
    Items(d.Contents(), d.datas)
  }

  lemma StoredAt(d: Dict, i: nat)
    requires d.Linked() && i < |d.order|
    ensures var p := d.order[i];
      && p in d.pairs && d.pairs[p].next == At(d.order, i + 1) && d.pairs[p].value in d.datas
      && Stored(d)[i] == (d.pairs[p].key, d.datas[d.pairs[p].value].bytes)
  {
    hide BucketsOk, NoDup, KeysOk, Uses, At;
    ValuesLive(d);
    assert ListStep(d.pairs, d.order, i);
    assert d.Contents()[i].1 in d.datas;
  }

  lemma StoredFirst(d: Dict)
    requires d.Linked()
    ensures d.membersList == At(d.order, 0)
  {
  }

  lemma ItemsWireAppend(little: bool, es: seq<Item>, i: nat)
    requires i < |es|
    ensures ItemsWire(little, es[..i + 1]) == ItemsWire(little, es[..i]) + ItemWire(little, es[i])
  {
    assert es[..i + 1] == es[..i] + [es[i]];
    ItemsWireJoin(little, es[..i], es[i]);
  }

  lemma {:induction false} ItemsWireJoin(little: bool, es: seq<Item>, e: Item)
    ensures ItemsWire(little, es + [e]) == ItemsWire(little, es) + ItemWire(little, e)
  {
    hide ItemWire;
    if es == [] {
      assert es + [e] == [e] && ItemsWire(little, [e]) == ItemWire(little, e) + [];
    } else {
      ItemsWireJoin(little, es[1..], e);
      assert (es + [e])[1..] == es[1..] + [e] && (es + [e])[0] == es[0];
      assert ItemWire(little, es[0]) + (ItemsWire(little, es[1..]) + ItemWire(little, e))
          == ItemWire(little, es[0]) + ItemsWire(little, es[1..]) + ItemWire(little, e);
    }
  }

  // ---------------------------------------------------------------- dict_serialized_length, dict_serialize

  const EINVAL := 22

  /** The items `count` announces: all of them, in a dict whose count is right. */
  ghost function Announced(d: Dict): seq<Item>
    requires d.Linked() && 0 <= d.count <= |d.order|
    reads d, d.members
  {
    Stored(d)[..d.count]
  }

  /** `dict_serialized_length`, for a total that fits `int`. */
  method SerializedLength(d: Dict, ghost little: bool) returns (len: int)
    requires d.Linked() && d.count < 0x8000_0000
    ensures if 0 <= d.count <= |d.order| then len == |Wire(little, Announced(d))| else len == -EINVAL
  {
    hide DictOk, ItemWire, ItemsWire, Items, Put4;
    if d.count < 0 {
      return -EINVAL;
    }
    StoredFirst(d);
    NoItems(little);
    var pair, count := d.membersList, d.count;
    ghost var i, es: seq<Item> := 0, Stored(d);
    len := 4;
    while count != 0
      invariant i + count == d.count && 0 <= count && i <= |es| && pair == At(d.order, i)
      invariant len == 4 + |ItemsWire(little, es[..i])|
      decreases count
    {
      if pair.None? {
        return -EINVAL;
      }
      StoredAt(d, i);
      ItemsWireAppend(little, es, i);
      len := len + 8;
      len := len + |d.pairs[pair.value].key| + 1;
      len := len + |d.datas[d.pairs[pair.value].value].bytes|;
      pair, count, i := d.pairs[pair.value].next, count - 1, i + 1;
    }
  }

  lemma NoItems(little: bool)
    ensures ItemsWire(little, []) == []
  {
  }

  method WriteItem(little: bool, buf: array<Byte>, at: nat, key: Key, value: Value, ghost done: seq<Byte>,
      ghost base: seq<Byte>)
    returns (pos: nat)
    requires at == |done| && at + |ItemWire(little, (key, value))| <= buf.Length && Filled(buf[..], done, base)
    modifies buf
    ensures pos == at + |ItemWire(little, (key, value))| && Filled(buf[..], done + ItemWire(little, (key, value)), base)
  {
    hide Put4, Filled;
    ghost var k, v := Put4(little, |key|), Put4(little, |value|);
    pos := at;
    Write(buf, pos, Put4(little, |key|), done, base);
    pos := pos + 4;
    Write(buf, pos, Put4(little, |value|), done + k, base);
    pos := pos + 4;
    Write(buf, pos, key, done + k + v, base);
    pos := pos + |key|;
    Write(buf, pos, [0], done + k + v + key, base);
    pos := pos + 1;
    Write(buf, pos, value, done + k + v + key + [0], base);
    pos := pos + |value|;
    assert done + k + v + key + [0] + value == done + (k + v + key + [0] + value);
  }

  /** How many pairs the loop of `dict_serialize` gets through. */
  ghost function Reached(d: Dict): nat
    requires d.count >= 0
    reads d
  {
    if d.count <= |d.order| then d.count else |d.order|
  }

  /** `dict_serialize`, into a buffer with room for what it writes. */
  method Serialize(d: Dict, little: bool, buf: array<Byte>) returns (ret: int)
    requires d.Linked() && d.count < 0x8000_0000
    requires d.count >= 0 ==> buf.Length >= 4 + |ItemsWire(little, Stored(d)[..Reached(d)])|
    modifies buf
    ensures ret == if 0 <= d.count <= |d.order| then 0 else -1
    ensures ret == 0 ==> Filled(buf[..], Wire(little, Announced(d)), old(buf[..]))
  {
    hide DictOk, ItemWire, ItemsWire, Items, Put4, Filled;
    if d.count < 0 {
      return -1;
    }
    StoredFirst(d);
    NoItems(little);
    ghost var es: seq<Item>, base := Stored(d), buf[..];
    ghost var head := Put4(little, d.count);
    FilledNone(base);
    assert [] + head == head == head + [];
    Write(buf, 0, Put4(little, d.count), [], base);
    var pair, count, pos := d.membersList, d.count, 4;
    ghost var i := 0;
    while count != 0
      invariant i + count == d.count && 0 <= count && i <= |es| && pair == At(d.order, i)
      invariant pos == |head + ItemsWire(little, es[..i])| && Filled(buf[..], head + ItemsWire(little, es[..i]), base)
      decreases count
    {
      if pair.None? {
        return -1;
      }
      StoredAt(d, i);
      ItemsWireAppend(little, es, i);
      ItemsWireGrows(little, es, i + 1, Reached(d));
      ghost var done := head + ItemsWire(little, es[..i]);
      var p := d.pairs[pair.value];
      pos := WriteItem(little, buf, pos, p.key, d.datas[p.value].bytes, done, base);
      assert done + ItemWire(little, es[i]) == head + ItemsWire(little, es[..i + 1]);
      pair, count, i := p.next, count - 1, i + 1;
    }
    return 0;
  }

  lemma {:induction false} ItemsWireGrows(little: bool, es: seq<Item>, i: nat, j: nat)
    requires i <= j <= |es|
    ensures |ItemsWire(little, es[..i])| <= |ItemsWire(little, es[..j])|
    decreases j
  {
    hide ItemWire, ItemsWire;
    if i < j {
      ItemsWireGrows(little, es, i, j - 1);
      ItemsWireAppend(little, es, j - 1);
    }
  }

  // ---------------------------------------------------------------- dict_unserialize

  lemma StoredPut(es: seq<(Key, Ptr)>, datas: Datas, us: seq<(Key, Ptr)>, news: Datas, k: Key, v: Ptr)
    requires forall i :: 0 <= i < |es| ==> es[i].1 in datas
    requires us == Put(es, k, v) && v in datas && forall i :: 0 <= i < |us| ==> us[i].1 in news
    requires forall d :: d in news ==> d in datas && news[d].bytes == datas[d].bytes
    ensures Items(us, news) == Put(Items(es, datas), k, datas[v].bytes)
  {
    hide Put;
    ItemsPutValue(es, datas, k, v);
    assert Items(us, news) == Items(us, datas);
  }

  /** One item set: a new value, then `dict_set`. */
  method SetItem(fill: Dict, key: Key, bytes: Value)
    requires fill.Linked()
    modifies fill, fill.members
    ensures fill.Linked() && Stored(fill) == Put(old(Stored(fill)), key, bytes)
    ensures fill.count - old(fill.count) == |Stored(fill)| - |old(Stored(fill))|
  {
    hide DictOk, Put, Items;
    ghost var es, before := fill.Contents(), fill.datas;
    ValuesLive(fill);
    var v := fill.NewData(bytes);
    ghost var datas := fill.datas;
    SameItems(es, before, datas);
    fill.Shape();
    var _ := fill.Set(Some(key), Some(v));
    fill.Shape();
    ValuesLive(fill);
    StoredPut(es, datas, fill.Contents(), fill.datas, key, v);
  }

  lemma SameItems(es: seq<(Key, Ptr)>, datas: Datas, news: Datas)
    requires forall i :: 0 <= i < |es| ==> es[i].1 in datas
    requires forall d :: d in datas ==> d in news && news[d].bytes == datas[d].bytes
    ensures Items(es, news) == Items(es, datas)
  {
  }

  /**
  `dict_unserialize`. The items before a fault stay in the dict. The count starts again from zero, so it
  is right afterwards exactly when the dict was empty.
  */
  method Unserialize(fill: Dict, little: bool, buf: seq<Byte>) returns (outcome: Outcome)
    requires fill.Linked() && |buf| < 0x8000_0000
    modifies fill, fill.members
    ensures fill.Linked() && outcome == Unwire(little, buf).outcome
    ensures Stored(fill) == PutAll(old(Stored(fill)), Unwire(little, buf).items)
    ensures outcome == Parsed ==> fill.count == |Stored(fill)| - |old(Stored(fill))|
    ensures outcome == Parsed ==> (fill.Valid() <==> old(Stored(fill)) == [])
  {
    hide DictOk, Put, Items, SignedAt, ItemAt;
    if |buf| < 4 {
      return Undersized;
    }
    var count := SignedAt(little, buf, 0);
    if count < 0 {
      return BadCount;
    }
    fill.count := 0;
    var i, pos := 0, 4;
    while i < count
      invariant i <= count && pos <= |buf| && fill.Linked()
      invariant var rest, all := ItemsAt(little, buf, pos, count - i), Unwire(little, buf);
        && PutAll(Stored(fill), rest.items) == PutAll(old(Stored(fill)), all.items) && rest.outcome == all.outcome
      invariant fill.count == |Stored(fill)| - |old(Stored(fill))|
    {
      match ItemAt(little, buf, pos)
      case Stop(why) =>
        return why;
      case Round(e, next) =>
        ghost var rest := ItemsAt(little, buf, next, count - i - 1);
        assert ([e] + rest.items)[1..] == rest.items;
        SetItem(fill, e.0, e.1);
        i, pos := i + 1, next;
    }
    return Parsed;
  }

  /** A dict printed and parsed into a fresh one: the same map in reverse order. */
  method Resend(d: Dict, little: bool, address: Ptr -> Key) returns (sent: seq<Byte>, copy: Dict)
    requires d.Valid() && d.count < 0x8000_0000 && |Wire(little, Stored(d))| < 0x8000_0000
    ensures fresh(copy) && copy.Valid() && Stored(copy) == Reversed(Stored(d)) && copy.count == d.count
    ensures |Stored(d)| < 0x8000_0000 && sent == Wire(little, Stored(d))
    ensures forall k :: Find(Stored(copy), k) == Find(Stored(d), k)
  {
    hide DictOk, Put, Items, Filled, Wire, Unwire, Reversed, Find;
    ghost var es: seq<Item> := Stored(d);
    StoredKeys(d);
    assert es[..|es|] == es;
    WireLength(little, es);
    var len := SerializedLength(d, little);
    var buf := new Byte[len];
    ghost var base := buf[..];
    var ret := Serialize(d, little, buf);
    FilledWhole(buf[..], Wire(little, es), base);
    UnwireWire(little, es);
    RoundTrips(little, es);
    copy := new Dict(1, address);
    EmptyStored(copy);
    sent := buf[..];
    var outcome := Unserialize(copy, little, sent);
    StoredSize(d);
    StoredSize(copy);
    ReversedSize(es);
  }

  /** Sent on once more, it is the same dict again, pair by pair, and the same bytes go out. */
  method ResendTwice(d: Dict, little: bool, address: Ptr -> Key) returns (copy: Dict, sent: seq<Byte>, again: seq<Byte>)
    requires d.Valid() && d.count < 0x8000_0000 && |Wire(little, Stored(d))| < 0x8000_0000
    ensures fresh(copy) && copy.Valid() && Stored(copy) == Stored(d)
    ensures |Stored(d)| < 0x8000_0000 && again == sent == Wire(little, Stored(d))
  {
    hide Wire, Reversed, Find, DictOk;
    ghost var es: seq<Item> := Stored(d);
    StoredKeys(d);
    var once, back;
    sent, once := Resend(d, little, address);
    RoundTrips(little, es);
    back, copy := Resend(once, little, address);
    ReversedTwice(es);
    var third;
    again, third := Resend(copy, little, address);
  }

  lemma StoredSize(d: Dict)
    requires d.Valid()
    ensures |Stored(d)| == d.count
  {
    hide DictOk;
    d.Shape();
  }

  lemma ReversedSize(es: seq<Item>)
    ensures |Reversed(es)| == |es|
  {
  }

  lemma StoredKeys(d: Dict)
    requires d.Linked()
    ensures KeysOnce(Stored(d))
  {
    hide DictOk;
    d.Shape();
    ValuesLive(d);
    var es := Stored(d);
    assert forall i :: 0 <= i < |es| ==> es[i].0 == d.Contents()[i].0;
  }

  lemma EmptyStored(d: Dict)
    requires d.Linked() && d.Contents() == []
    ensures Stored(d) == []
  {
  }

  lemma WireLength(little: bool, es: seq<Item>)
    requires |es| < 0x8000_0000
    ensures |Wire(little, es)| == 4 + |ItemsWire(little, es)|
  {
  }
}
