/**
The byte swaps of byte-order.h and the bytes a word is stored as. The masks and shifts of the macros are
written as remainders, quotients and products of unsigned words.
*/
module ByteOrder {
  import opened Seqs

  type Byte = x: int | 0 <= x < 256

  const TWO16 := 0x1_0000
  const TWO32 := 0x1_0000_0000
  const TWO64 := 0x1_0000_0000_0000_0000

  type U32 = x: nat | x < TWO32
  type U64 = x: nat | x < TWO64

  // ---------------------------------------------------------------- the macros

  function Swap2(x: nat): (r: nat)
    requires x < TWO16
    ensures r < TWO16
  {
    (x % 256) * 256 + x / 256
  }

  function Swap4(x: nat): (r: nat)
    requires x < TWO32
    ensures r < TWO32
  {
    Swap2(x % TWO16) * TWO16 + Swap2(x / TWO16)
  }

  function Swap8(x: nat): (r: nat)
    requires x < TWO64
    ensures r < TWO64
  {
    Swap4(x % TWO32) * TWO32 + Swap4(x / TWO32)
  }

  /**
  What `hton32` and `hton64` point at once set up. On a big-endian host that is `__noswap32` and
  `__noswap64`, which swap all the same.
  */
  function Hton32(little: bool, x: nat): (r: nat)
    requires x < TWO32
    ensures r < TWO32
  {
    if little then Swap4(x) else Swap4(x)
  }

  function Hton64(little: bool, x: nat): (r: nat)
    requires x < TWO64
    ensures r < TWO64
  {
    if little then Swap8(x) else Swap8(x)
  }

  // ---------------------------------------------------------------- self-inverse

  lemma Swap2Twice(x: nat)
    requires x < TWO16
    ensures Swap2(Swap2(x)) == x
  {
    var y := Swap2(x);
    assert y % 256 == x / 256 && y / 256 == x % 256;
  }

  lemma Swap4Twice(x: nat)
    requires x < TWO32
    ensures Swap4(Swap4(x)) == x
  {
    hide Swap2;
    Swap2Twice(x % TWO16);
    Swap2Twice(x / TWO16);
  }

  lemma Swap8Twice(x: nat)
    requires x < TWO64
    ensures Swap8(Swap8(x)) == x
  {
    hide Swap4;
    Swap4Twice(x % TWO32);
    Swap4Twice(x / TWO32);
  }

  // ---------------------------------------------------------------- memory

  function Bytes2(x: nat): (s: seq<Byte>)
    requires x < TWO16
    ensures |s| == 2
  {
    [x % 256, x / 256]
  }

  /** The bytes of a word, least significant first. */
  function Bytes4(x: nat): (s: seq<Byte>)
    requires x < TWO32
    ensures |s| == 4
  {
    Bytes2(x % TWO16) + Bytes2(x / TWO16)
  }

  function Bytes8(x: nat): (s: seq<Byte>)
    requires x < TWO64
    ensures |s| == 8
  {
    Bytes4(x % TWO32) + Bytes4(x / TWO32)
  }

  function Word2(s: seq<Byte>): (x: nat)
    requires |s| == 2
    ensures x < TWO16
  {
    s[0] as int + 256 * s[1] as int
  }

  function Word4(s: seq<Byte>): (x: nat)
    requires |s| == 4
    ensures x < TWO32
  {
    Word2(s[..2]) + Word2(s[2..]) * TWO16
  }

  function Word8(s: seq<Byte>): (x: nat)
    requires |s| == 8
    ensures x < TWO64
  {
    Word4(s[..4]) + Word4(s[4..]) * TWO32
  }

  /** How the host lays out a word. */
  function Store4(little: bool, x: nat): (s: seq<Byte>)
    requires x < TWO32
    ensures |s| == 4
  {
    if little then Bytes4(x) else Reversed(Bytes4(x))
  }

  function Store8(little: bool, x: nat): (s: seq<Byte>)
    requires x < TWO64
    ensures |s| == 8
  {
    if little then Bytes8(x) else Reversed(Bytes8(x))
  }

  function Load4(little: bool, s: seq<Byte>): (x: nat)
    requires |s| == 4
    ensures x < TWO32
  {
    if little then Word4(s) else Word4(Reversed(s))
  }

  function Load8(little: bool, s: seq<Byte>): (x: nat)
    requires |s| == 8
    ensures x < TWO64
  {
    if little then Word8(s) else Word8(Reversed(s))
  }

  lemma WordBytes4(x: nat)
    requires x < TWO32
    ensures Word4(Bytes4(x)) == x
  {
    var s := Bytes4(x);
    assert s[..2] == Bytes2(x % TWO16) && s[2..] == Bytes2(x / TWO16);
  }

  lemma WordBytes8(x: nat)
    requires x < TWO64
    ensures Word8(Bytes8(x)) == x
  {
    hide Bytes4, Word4;
    var s := Bytes8(x);
    assert s[..4] == Bytes4(x % TWO32) && s[4..] == Bytes4(x / TWO32);
    WordBytes4(x % TWO32);
    WordBytes4(x / TWO32);
  }

  // ---------------------------------------------------------------- words on the wire

  /** A word as the wire formats write it, and as they read it back. */
  function Put4(little: bool, x: nat): (s: seq<Byte>)
    requires x < TWO32
    ensures |s| == 4
  {
    Store4(little, Hton32(little, x))
  }

  function Get4(little: bool, s: seq<Byte>): (x: nat)
    requires |s| == 4
    ensures x < TWO32
  {
    Hton32(little, Load4(little, s))
  }

  function Put8(little: bool, x: nat): (s: seq<Byte>)
    requires x < TWO64
    ensures |s| == 8
  {
    Store8(little, Hton64(little, x))
  }

  function Get8(little: bool, s: seq<Byte>): (x: nat)
    requires |s| == 8
    ensures x < TWO64
  {
    Hton64(little, Load8(little, s))
  }

  /** On one host, what is written is read back, whichever way it stores words. */
  lemma GetPut4(little: bool, x: nat)
    requires x < TWO32
    ensures Get4(little, Put4(little, x)) == x
  {
    hide Swap4, Bytes4, Word4, Reversed;
    var y := Hton32(little, x);
    WordBytes4(y);
    ReversedTwice(Bytes4(y));
    Swap4Twice(x);
  }

  lemma GetPut8(little: bool, x: nat)
    requires x < TWO64
    ensures Get8(little, Put8(little, x)) == x
  {
    hide Swap8, Bytes8, Word8, Reversed;
    var y := Hton64(little, x);
    WordBytes8(y);
    ReversedTwice(Bytes8(y));
    Swap8Twice(x);
  }

  /** A swap turns the bytes of a word around. */
  lemma SwapTurns2(x: nat)
    requires x < TWO16
    ensures Bytes2(Swap2(x)) == Reversed(Bytes2(x))
  {
    assert Bytes2(x)[1..] == [x / 256];
  }

  lemma SwapTurns4(x: nat)
    requires x < TWO32
    ensures Bytes4(Swap4(x)) == Reversed(Bytes4(x))
  {
    hide Swap2, Bytes2, Reversed;
    SwapTurns2(x % TWO16);
    SwapTurns2(x / TWO16);
    ReversedAppend(Bytes2(x % TWO16), Bytes2(x / TWO16));
  }

  lemma SwapTurns8(x: nat)
    requires x < TWO64
    ensures Bytes8(Swap8(x)) == Reversed(Bytes8(x))
  {
    hide Swap4, Bytes4, Reversed;
    SwapTurns4(x % TWO32);
    SwapTurns4(x / TWO32);
    ReversedAppend(Bytes4(x % TWO32), Bytes4(x / TWO32));
  }

  /** Most significant byte first: network order. */
  function Network4(x: nat): seq<Byte>
    requires x < TWO32
  {
    Reversed(Bytes4(x))
  }

  /** The wire is in network order exactly on a little-endian host; a big-endian one writes the reverse. */
  lemma NetworkOrder4(little: bool)
    ensures little <==> forall x: nat :: x < TWO32 ==> Put4(little, x) == Network4(x)
  {
    hide Swap4, Bytes4, Reversed;
    if little {
      forall x: nat | x < TWO32 ensures Put4(little, x) == Network4(x) { SwapTurns4(x); }
    } else {
      SwapTurns4(1);
      ReversedTwice(Bytes4(1));
      OneIsUneven();
      assert Put4(little, 1) != Network4(1);
    }
  }

  lemma OneIsUneven()
    ensures Bytes4(1) != Reversed(Bytes4(1))
  {
    assert Bytes4(1)[0] == 1;
    assert Reversed(Bytes4(1)) == Bytes4(Swap4(1)) by { SwapTurns4(1); }
    assert Swap4(1) % TWO16 == 0;
  }
}
