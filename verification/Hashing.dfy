/** `SuperFastHash` as it evaluates, and the two ways dict.c turns it into a bucket. */
module Hashing {
  import opened ByteOrder

  /** The bytes of a C string without its NUL, short enough for the `int32_t` its length is passed in. */
  type Key = s: seq<Byte> | 0 !in s && |s| < 0x8000_0000 witness []

  function Xor(x: nat, y: nat): nat {
    if x == 0 && y == 0 then 0 else (x % 2 + y % 2) % 2 + 2 * Xor(x / 2, y / 2)
  }

  lemma {:induction false} XorZero(x: nat)
    ensures Xor(x, 0) == x
  {
    if x != 0 { XorZero(x / 2); }
  }

  /** A `char` widened to 32 bits. */
  function Widened(b: Byte): nat {
    if b < 128 then b as int else TWO32 - 256 + b as int
  }

  /** The first loop returns in its first round, so only the byte at `len` is mixed in. */
  function SuperFastHash(data: seq<Byte>, len: int): nat
    requires len < |data|
  {
    if len <= 1 then 1 else Xor(len, Widened(data[len]))
  }

  /** On a NUL-terminated key the hash is the length, or 1 for a short key. */
  lemma HashIsLength(key: Key)
    ensures SuperFastHash(key + [0], |key|) == if |key| <= 1 then 1 else |key|
  {
    XorZero(|key|);
  }

  function Int32(x: nat): int
    requires x < TWO32
  {
    if x < 0x8000_0000 then x else x - TWO32
  }

  /** The C remainder, which takes the sign of the dividend. */
  function Remainder(a: int, b: int): int
    requires b > 0
  {
    if a >= 0 then a % b else -((-a) % b)
  }

  /** The bucket `_dict_set` stores into: a signed remainder. */
  function SetBucket(key: Key, size: nat): int
    requires 0 < size < 0x8000_0000
  {
    HashIsLength(key);
    Remainder(Int32(SuperFastHash(key + [0], |key|)), size)
  }

  /** The bucket `_dict_lookup` and `dict_del` search: an unsigned remainder. */
  function GetBucket(key: Key, size: nat): int
    requires 0 < size < 0x8000_0000
  {
    SuperFastHash(key + [0], |key|) % size
  }

  /** Both remainders name the same bucket. */
  lemma BucketsAgree(key: Key, size: nat)
    requires 0 < size < 0x8000_0000
    ensures 0 <= SetBucket(key, size) == GetBucket(key, size) < size
  {
    HashIsLength(key);
  }
}
