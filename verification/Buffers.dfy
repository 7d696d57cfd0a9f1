/** Byte buffers: the C strings found in one, and one that is filled from its start. */
module Buffers {
  import opened Options
  import opened ByteOrder

  /** The C string at `pos`, if it ends within the buffer. */
  function StringAt(buf: seq<Byte>, pos: nat): (r: Option<seq<Byte>>)
    requires pos <= |buf|
    ensures r.Some? ==>
      && 0 !in r.value && pos + |r.value| < |buf| && buf[pos..pos + |r.value|] == r.value && buf[pos + |r.value|] == 0
    decreases |buf| - pos
  {
    if pos == |buf| then None
    else if buf[pos] == 0 then Some([])
    else
      match StringAt(buf, pos + 1)
      case None => None
      case Some(s) => Some([buf[pos]] + s)
  }

  lemma {:induction false} StringFrom(buf: seq<Byte>, pos: nat, key: seq<Byte>)
    requires 0 !in key && pos + |key| < |buf| && buf[pos..pos + |key|] == key && buf[pos + |key|] == 0
    ensures StringAt(buf, pos) == Some(key)
    decreases |key|
  {
    if key != [] {
      assert buf[pos] == key[0];
      StringFrom(buf, pos + 1, key[1..]);
      assert [key[0]] + key[1..] == key;
    }
  }

  lemma StringPut(a: seq<Byte>, key: seq<Byte>, b: seq<Byte>)
    requires 0 !in key
    ensures StringAt(a + key + [0] + b, |a|) == Some(key)
  {
    StringFrom(a + key + [0] + b, |a|, key);
  }

  // ---------------------------------------------------------------- writing

  /** `memcpy` into a buffer. */
  method Copy(buf: array<Byte>, at: nat, s: seq<Byte>)
    requires at + |s| <= buf.Length
    modifies buf
    ensures buf[..] == old(buf[..at]) + s + old(buf[at + |s|..])
  {
    for i := 0 to |s|
      invariant buf[..at + i] == old(buf[..at]) + s[..i] && buf[at + i..] == old(buf[at + i..])
    {
      buf[at + i] := s[i];
      assert buf[..at + i + 1] == buf[..at + i] + [s[i]];
      assert old(buf[at + i + 1..]) == old(buf[at + i..])[1..];
      assert buf[at + i + 1..] == buf[at + i..][1..];
    }
    assert buf[..] == buf[..at + |s|] + buf[at + |s|..];
  }

  /** A buffer that held `base` and now starts with `done`. */
  ghost predicate Filled(now: seq<Byte>, done: seq<Byte>, base: seq<Byte>) {
    |done| <= |base| && now == done + base[|done|..]
  }

  method Write(buf: array<Byte>, at: nat, s: seq<Byte>, ghost done: seq<Byte>, ghost base: seq<Byte>)
    requires at == |done| && at + |s| <= buf.Length && Filled(buf[..], done, base)
    modifies buf
    ensures Filled(buf[..], done + s, base)
  {
    Copy(buf, at, s);
    ghost var was := old(buf[..]);
    assert was[..at] == done && was[at + |s|..] == base[at + |s|..];
    assert old(buf[..at]) == was[..at] && old(buf[at + |s|..]) == was[at + |s|..];
  }

  lemma FilledNone(base: seq<Byte>)
    ensures Filled(base, [], base)
  {
    assert [] + base[0..] == base;
  }

  lemma FilledWhole(now: seq<Byte>, done: seq<Byte>, base: seq<Byte>)
    requires Filled(now, done, base) && |done| == |base|
    ensures now == done
  {
    assert done + [] == done;
  }
}
