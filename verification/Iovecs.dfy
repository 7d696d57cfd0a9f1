/** Scatter/gather vectors: lengths, slices and unloading. */
module Iovecs {
  import opened ByteOrder
  import opened Buffers

  /** A stretch of `len` bytes of a memory block, from `base` on. */
  datatype Iovec = Iovec(block: nat, base: nat, len: nat)

  /** The blocks of memory the vectors point into. */
  type Memory = map<nat, seq<Byte>>

  ghost predicate Points(mem: Memory, v: Iovec) {
    v.block in mem && v.base + v.len <= |mem[v.block]|
  }

  ghost predicate AllPoint(mem: Memory, vs: seq<Iovec>) {
    forall i :: 0 <= i < |vs| ==> Points(mem, vs[i])
  }

  function Bytes(mem: Memory, v: Iovec): (s: seq<Byte>)
    requires Points(mem, v)
    ensures |s| == v.len
  {
    mem[v.block][v.base..v.base + v.len]
  }

  function Length(vs: seq<Iovec>): nat {
    if vs == [] then 0 else Length(vs[..|vs| - 1]) + vs[|vs| - 1].len
  }

  /** The bytes a list of vectors stands for. */
  ghost function Gather(mem: Memory, vs: seq<Iovec>): (s: seq<Byte>)
    requires AllPoint(mem, vs)
    ensures |s| == Length(vs)
  {
    if vs == [] then [] else Gather(mem, vs[..|vs| - 1]) + Bytes(mem, vs[|vs| - 1])
  }

  // ---------------------------------------------------------------- iov_subset

  /** Whether a vector at `offset` reaches into [src, dst]; touching at an end counts. */
  predicate Touches(offset: nat, len: nat, src: nat, dst: nat) {
    offset + len >= src && offset <= dst
  }

  /** A difference of lengths in the 64 bits of `size_t`: a negative one wraps round. */
  function Unsigned(x: int): nat {
    if x >= 0 then x else x % TWO64
  }

  /** The part of a vector at `offset` that lies within [src, dst). */
  function Piece(v: Iovec, offset: nat, src: nat, dst: nat): (p: Iovec)
    requires Touches(offset, v.len, src, dst)
    ensures p.block == v.block && v.base <= p.base
    ensures if src <= dst then p.base + p.len <= v.base + v.len else p.len == Unsigned(dst - src)
  {
    var start := if src >= offset then src - offset else 0;
    var end := if dst <= offset + v.len then dst - offset else v.len;
    Iovec(v.block, v.base + start, Unsigned(end - start))
  }

  function Pieces(vs: seq<Iovec>, src: nat, dst: nat): seq<Iovec> {
    if vs == [] then []
    else
      var init, v := vs[..|vs| - 1], vs[|vs| - 1];
      Pieces(init, src, dst)
      + (if Touches(Length(init), v.len, src, dst) then [Piece(v, Length(init), src, dst)] else [])
  }

  function Min(a: nat, b: nat): nat {
    if a <= b then a else b
  }

  lemma {:induction false} PiecesPoint(mem: Memory, vs: seq<Iovec>, src: nat, dst: nat)
    requires src <= dst && AllPoint(mem, vs)
    ensures AllPoint(mem, Pieces(vs, src, dst))
  {
    if vs != [] { PiecesPoint(mem, vs[..|vs| - 1], src, dst); }
  }

  /** What one vector adds to the slice. */
  lemma PieceBytes(mem: Memory, before: seq<Byte>, v: Iovec, src: nat, dst: nat)
    requires src <= dst && Points(mem, v)
    ensures var o, n := |before|, |before| + v.len; var all := before + Bytes(mem, v);
      all[Min(src, n)..Min(dst, n)] == before[Min(src, o)..Min(dst, o)] +
        (if Touches(o, v.len, src, dst) then Bytes(mem, Piece(v, o, src, dst)) else [])
  {
    hide Bytes;
    var o := |before|;
    if Touches(o, v.len, src, dst) {
      var start, end := if src >= o then src - o else 0, if dst <= o + v.len then dst - o else v.len;
      PieceSlice(mem, v, o, src, dst, start, end);
    }
    SliceAppend(before, Bytes(mem, v), src, dst);
  }

  lemma PieceSlice(mem: Memory, v: Iovec, o: nat, src: nat, dst: nat, start: nat, end: nat)
    requires src <= dst && Points(mem, v) && Touches(o, v.len, src, dst)
    requires start == (if src >= o then src - o else 0) && end == (if dst <= o + v.len then dst - o else v.len)
    ensures start <= end <= v.len && Bytes(mem, Piece(v, o, src, dst)) == Bytes(mem, v)[start..end]
  {
    SliceSlice(mem[v.block], v.base, v.len, start, end);
  }

  lemma SliceSlice(s: seq<Byte>, base: nat, len: nat, start: nat, end: nat)
    requires base + len <= |s| && start <= end <= len
    ensures s[base..base + len][start..end] == s[base + start..base + end]
  {
    var w := s[base..base + len];
    forall k | 0 <= k < end - start ensures w[start..end][k] == s[base + start..base + end][k] {
      assert w[start..end][k] == w[start + k];
      assert s[base + start..base + end][k] == s[base + start + k];
    }
  }

  lemma SliceAppend(a: seq<Byte>, b: seq<Byte>, src: nat, dst: nat)
    requires src <= dst
    ensures var o, n := |a|, |a| + |b|;
      (a + b)[Min(src, n)..Min(dst, n)] == a[Min(src, o)..Min(dst, o)] +
        (if !Touches(o, |b|, src, dst) then []
         else b[if src >= o then src - o else 0..if dst <= n then dst - o else |b|])
  {
  }

  /**
  Gathering the slice is slicing what is gathered. Vectors that only touch an end contribute pieces of
  length zero.
  */
  lemma {:induction false} SubsetSlices(mem: Memory, vs: seq<Iovec>, src: nat, dst: nat)
    requires src <= dst && AllPoint(mem, vs)
    ensures AllPoint(mem, Pieces(vs, src, dst))
    ensures Gather(mem, Pieces(vs, src, dst)) == Gather(mem, vs)[Min(src, Length(vs))..Min(dst, Length(vs))]
  {
    hide Piece, Bytes, Touches;
    PiecesPoint(mem, vs, src, dst);
    if vs != [] {
      var init, v := vs[..|vs| - 1], vs[|vs| - 1];
      SubsetSlices(mem, init, src, dst);
      PieceBytes(mem, Gather(mem, init), v, src, dst);
      if Touches(Length(init), v.len, src, dst) {
        GatherSnoc(mem, Pieces(init, src, dst), Piece(v, Length(init), src, dst));
      } else {
        assert Pieces(vs, src, dst) == Pieces(init, src, dst);
      }
    }
  }

  /** The vectors that end at or behind `src` and start at or before `dst`. */
  ghost function Within(vs: seq<Iovec>, src: nat, dst: nat): set<int> {
    set i | 0 <= i < |vs| && Length(vs[..i]) <= dst && src <= Length(vs[..i]) + vs[i].len
  }

  lemma WithinNext(vs: seq<Iovec>, src: nat, dst: nat)
    requires vs != []
    ensures var n := |vs| - 1; var o := Length(vs[..n]);
      Within(vs, src, dst) == Within(vs[..n], src, dst) + (if o <= dst && src <= o + vs[n].len then {n} else {})
  {
    hide Length;
    var n := |vs| - 1;
    forall i | 0 <= i < n ensures i in Within(vs, src, dst) <==> i in Within(vs[..n], src, dst) {
      assert vs[..n][..i] == vs[..i];
    }
  }

  /** There is one piece for each of them, and no other. */
  lemma {:induction false} PiecesCount(vs: seq<Iovec>, src: nat, dst: nat)
    ensures |Pieces(vs, src, dst)| == |Within(vs, src, dst)|
  {
    if vs != [] {
      hide Length, Piece, Within;
      PiecesCount(vs[..|vs| - 1], src, dst);
      WithinNext(vs, src, dst);
      WithinRange(vs[..|vs| - 1], src, dst);
    }
  }

  lemma WithinRange(vs: seq<Iovec>, src: nat, dst: nat)
    ensures |vs| !in Within(vs, src, dst)
  {
  }

  /**
  With the end before the start the result is good only if it is empty: a vector that holds both offsets gives a
  piece whose length has wrapped round.
  */
  lemma SubsetGood(mem: Memory, vs: seq<Iovec>, src: nat, dst: nat)
    requires AllPoint(mem, vs) && forall b :: b in mem ==> |mem[b]| < 0x8000_0000_0000_0000
    ensures AllPoint(mem, Pieces(vs, src, dst)) <==> src <= dst || Pieces(vs, src, dst) == []
  {
    hide Pieces;
    if src <= dst {
      SubsetSlices(mem, vs, src, dst);
    } else if Pieces(vs, src, dst) != [] {
      WrappedPieces(mem, vs, src, dst);
      assert !Points(mem, Pieces(vs, src, dst)[0]);
    }
  }

  lemma {:induction false} WrappedPieces(mem: Memory, vs: seq<Iovec>, src: nat, dst: nat)
    requires src > dst && AllPoint(mem, vs) && forall b :: b in mem ==> |mem[b]| < 0x8000_0000_0000_0000
    ensures forall i :: 0 <= i < |Pieces(vs, src, dst)| ==> !Points(mem, Pieces(vs, src, dst)[i])
  {
    if vs != [] {
      var init, v := vs[..|vs| - 1], vs[|vs| - 1];
      WrappedPieces(mem, init, src, dst);
      assert Points(mem, v);
      if Touches(Length(init), v.len, src, dst) {
        assert src - dst <= v.len < 0x8000_0000_0000_0000;
        assert Piece(v, Length(init), src, dst).len == TWO64 - (src - dst);
      }
    }
  }

  lemma GatherSnoc(mem: Memory, vs: seq<Iovec>, v: Iovec)
    requires AllPoint(mem, vs) && Points(mem, v)
    ensures AllPoint(mem, vs + [v]) && Gather(mem, vs + [v]) == Gather(mem, vs) + Bytes(mem, v)
  {
    assert (vs + [v])[..|vs|] == vs;
  }

  lemma PiecesNext(vs: seq<Iovec>, i: nat, src: nat, dst: nat)
    requires i < |vs|
    ensures Length(vs[..i + 1]) == Length(vs[..i]) + vs[i].len
    ensures var offset := Length(vs[..i]);
      Pieces(vs[..i + 1], src, dst) ==
        Pieces(vs[..i], src, dst)
        + (if Touches(offset, vs[i].len, src, dst) then [Piece(vs[i], offset, src, dst)] else [])
  {
    assert vs[..i + 1][..i] == vs[..i];
  }

  lemma {:induction false} PiecesGrow(vs: seq<Iovec>, i: nat, src: nat, dst: nat)
    requires i <= |vs|
    ensures |Pieces(vs[..i], src, dst)| <= |Pieces(vs, src, dst)|
    decreases |vs| - i
  {
    hide Pieces;
    if i < |vs| {
      PiecesNext(vs, i, src, dst);
      PiecesGrow(vs, i + 1, src, dst);
    } else {
      assert vs[..i] == vs;
    }
  }

  /** `iov_length`. */
  method IovLength(vector: array<Iovec>) returns (size: nat)
    ensures size == Length(vector[..])
  {
    size := 0;
    for i := 0 to vector.Length
      invariant size == Length(vector[..i])
    {
      assert vector[..i + 1][..i] == vector[..i];
      size := size + vector[i].len;
    }
    assert vector[..vector.Length] == vector[..];
  }

  /** `iov_subset`; without `into` it only counts, and counts the same. */
  method IovSubset(orig: array<Iovec>, src: nat, dst: nat, into: array?<Iovec>) returns (count: nat)
    requires into != orig
    requires into != null ==> into.Length >= |Pieces(orig[..], src, dst)|
    modifies into
    ensures count == |Pieces(orig[..], src, dst)|
    ensures into != null ==> into[..count] == Pieces(orig[..], src, dst)
  {
    hide Pieces, Piece, Length;
    ghost var vs := orig[..];
    PiecesNil(src, dst);
    assert vs[..0] == [];
    var offset := 0;
    count := 0;
    for i := 0 to orig.Length
      invariant orig[..] == vs && offset == Length(vs[..i]) && count == |Pieces(vs[..i], src, dst)|
      invariant into != null ==> count <= into.Length && into[..count] == Pieces(vs[..i], src, dst)
    {
      PiecesNext(vs, i, src, dst);
      PiecesGrow(vs, i + 1, src, dst);
      var v := orig[i];
      assert v == vs[i];
      if !(offset + v.len < src || offset > dst) {
        if into != null {
          var start, end := 0, v.len;
          if src >= offset {
            start := src - offset;
          }
          if dst <= offset + v.len {
            end := dst - offset;
          }
          into[count] := Iovec(v.block, v.base + start, Unsigned(end - start));
          PieceIs(v, offset, src, dst, start, end);
          assert into[..count + 1] == into[..count] + [into[count]];
        }
        count := count + 1;
      }
      offset := offset + v.len;
    }
    assert vs[..orig.Length] == vs;
  }

  lemma PiecesNil(src: nat, dst: nat)
    ensures Pieces([], src, dst) == [] && Length([]) == 0
  {
  }

  lemma PieceIs(v: Iovec, offset: nat, src: nat, dst: nat, start: nat, end: nat)
    requires Touches(offset, v.len, src, dst)
    requires start == if src >= offset then src - offset else 0
    requires end == if dst <= offset + v.len then dst - offset else v.len
    ensures Piece(v, offset, src, dst) == Iovec(v.block, v.base + start, Unsigned(end - start))
  {
  }

  /** `iov_unload`: the gathered bytes, one vector after the other. */
  method IovUnload(mem: Memory, vector: array<Iovec>, buf: array<Byte>)
    requires AllPoint(mem, vector[..]) && buf.Length >= Length(vector[..])
    modifies buf
    ensures AllPoint(mem, vector[..]) && Filled(buf[..], Gather(mem, vector[..]), old(buf[..]))
  {
    hide Gather, Length, Filled, Bytes;
    ghost var vs, base := vector[..], buf[..];
    var copied := 0;
    assert vs[..0] == [];
    GatherNil(mem);
    FilledNone(base);
    for i := 0 to vector.Length
      invariant vector[..] == vs && AllPoint(mem, vs[..i]) && copied == Length(vs[..i])
      invariant Filled(buf[..], Gather(mem, vs[..i]), base)
    {
      assert vs[..i + 1] == vs[..i] + [vs[i]];
      assert Points(mem, vs[i]);
      GatherSnoc(mem, vs[..i], vs[i]);
      LengthGrows(vs, i);
      Write(buf, copied, Bytes(mem, vector[i]), Gather(mem, vs[..i]), base);
      copied := copied + vector[i].len;
    }
    assert vs[..vector.Length] == vs;
  }

  lemma GatherNil(mem: Memory)
    ensures AllPoint(mem, []) && Gather(mem, []) == [] && Length([]) == 0
  {
  }

  lemma {:induction false} LengthGrows(vs: seq<Iovec>, i: nat)
    requires i < |vs|
    ensures Length(vs[..i + 1]) == Length(vs[..i]) + vs[i].len && Length(vs[..i + 1]) <= Length(vs)
    decreases |vs| - i
  {
    hide Length;
    LengthNext(vs, i);
    if i + 1 < |vs| {
      LengthGrows(vs, i + 1);
    } else {
      assert vs[..i + 1] == vs;
    }
  }

  lemma LengthNext(vs: seq<Iovec>, i: nat)
    requires i < |vs|
    ensures Length(vs[..i + 1]) == Length(vs[..i]) + vs[i].len
  {
    assert vs[..i + 1][..i] == vs[..i];
  }
}
