/** The in-place block rotation of `exchange`. */
module ArgvExchange {

  /** `s` with the adjacent blocks [b, m) and [m, t) swapped. */
  function Rotated<T>(s: seq<T>, b: nat, m: nat, t: nat): (r: seq<T>)
    requires b <= m <= t <= |s|
    ensures |r| == |s|
  {
    s[..b] + s[m..t] + s[b..m] + s[t..]
  }

  /** `s` with the equally long, disjoint blocks at `a` and `b` swapped. */
  function Swapped<T>(s: seq<T>, a: nat, b: nat, len: nat): (r: seq<T>)
    requires a + len <= b && b + len <= |s|
    ensures |r| == |s|
  {
    s[..a] + s[b..b + len] + s[a + len..b] + s[a..a + len] + s[b + len..]
  }

  method SwapRanges<T>(argv: array<T>, a: nat, b: nat, len: nat)
    requires a + len <= b && b + len <= argv.Length
    modifies argv
    ensures argv[..] == Swapped(old(argv[..]), a, b, len)
  {
    for i := 0 to len
      invariant forall k :: a <= k < a + i ==> argv[k] == old(argv[..])[k - a + b]
      invariant forall k :: b <= k < b + i ==> argv[k] == old(argv[..])[k - b + a]
      invariant forall k :: 0 <= k < argv.Length && !(a <= k < a + i) && !(b <= k < b + i) ==> argv[k] == old(argv[k])
    {
      argv[a + i], argv[b + i] := argv[b + i], argv[a + i];
    }
    SwappedBy(old(argv[..]), argv[..], a, b, len);
  }

  lemma SwappedBy<T>(s: seq<T>, r: seq<T>, a: nat, b: nat, len: nat)
    requires a + len <= b && b + len <= |s| == |r|
    requires forall k :: a <= k < a + len ==> r[k] == s[k - a + b]
    requires forall k :: b <= k < b + len ==> r[k] == s[k - b + a]
    requires forall k :: 0 <= k < |s| && !(a <= k < a + len) && !(b <= k < b + len) ==> r[k] == s[k]
    ensures r == Swapped(s, a, b, len)
  {
  }

  /** Swapping the short lower block with the end of the upper one leaves the same rotation to do. */
  lemma ShortBottom<T>(s: seq<T>, b: nat, m: nat, t: nat)
    requires b <= m <= t <= |s| && t - m >= m - b
    ensures Rotated(Swapped(s, b, t - (m - b), m - b), b, m, t - (m - b)) == Rotated(s, b, m, t)
  {
    var len := m - b;
    var u := Swapped(s, b, t - len, len);
    assert u[..b] == s[..b] && u[b..m] == s[t - len..t];
    assert u[m..t - len] == s[m..t - len] && u[t - len..] == s[b..m] + s[t..];
    assert s[m..t] == s[m..t - len] + s[t - len..t];
  }

  /** Swapping the short upper block with the start of the lower one leaves the same rotation to do. */
  lemma ShortTop<T>(s: seq<T>, b: nat, m: nat, t: nat)
    requires b <= m <= t <= |s| && t - m <= m - b
    ensures Rotated(Swapped(s, b, m, t - m), b + (t - m), m, t) == Rotated(s, b, m, t)
  {
    var len := t - m;
    var u := Swapped(s, b, m, len);
    assert u[..b + len] == s[..b] + s[m..t] && u[b + len..m] == s[b + len..m];
    assert u[m..t] == s[b..b + len] && u[t..] == s[t..];
    assert s[b..m] == s[b..b + len] + s[b + len..m];
  }

  lemma NothingToRotate<T>(s: seq<T>, b: nat, m: nat, t: nat)
    requires b <= m <= t <= |s| && (b == m || m == t)
    ensures Rotated(s, b, m, t) == s
  {
  }

  /** The loop of `exchange`: shorter block first, for all block lengths. */
  method Exchange<T>(argv: array<T>, first: nat, last: nat, next: nat)
    requires first <= last <= next <= argv.Length
    modifies argv
    ensures argv[..] == Rotated(old(argv[..]), first, last, next)
  {
    hide Rotated, Swapped;
    var bottom: nat, middle: nat, top: nat := first, last, next;
    while top > middle && middle > bottom
      invariant bottom <= middle <= top <= argv.Length
      invariant Rotated(argv[..], bottom, middle, top) == Rotated(old(argv[..]), first, last, next)
      decreases top - bottom
    {
      if top - middle > middle - bottom {
        var len := middle - bottom;
        ShortBottom(argv[..], bottom, middle, top);
        SwapRanges(argv, bottom, top - len, len);
        top := top - len;
      } else {
        var len := top - middle;
        ShortTop(argv[..], bottom, middle, top);
        SwapRanges(argv, bottom, middle, len);
        bottom := bottom + len;
      }
    }
    NothingToRotate(argv[..], bottom, middle, top);
  }
}
