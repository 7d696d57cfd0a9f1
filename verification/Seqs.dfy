/** Facts about duplicate-free sequences, which stand for the intrusive lists of the sources. */
module Seqs {
  import opened Options

  /** The element at `i`, if there is one. */
  function At<T>(s: seq<T>, i: int): Option<T> {
    if 0 <= i < |s| then Some(s[i]) else None
  }

  function Reversed<T>(s: seq<T>): (r: seq<T>)
    ensures |r| == |s|
  {
    if s == [] then [] else Reversed(s[1..]) + [s[0]]
  }

  lemma {:induction false} ReversedAppend<T>(a: seq<T>, b: seq<T>)
    ensures Reversed(a + b) == Reversed(b) + Reversed(a)
  {
    if a == [] {
      assert a + b == b;
    } else {
      ReversedAppend(a[1..], b);
      assert (a + b)[1..] == a[1..] + b && (a + b)[0] == a[0];
      assert (Reversed(b) + Reversed(a[1..])) + [a[0]] == Reversed(b) + (Reversed(a[1..]) + [a[0]]);
    }
  }

  lemma {:induction false} ReversedTwice<T>(s: seq<T>)
    ensures Reversed(Reversed(s)) == s
  {
    if s != [] {
      ReversedTwice(s[1..]);
      ReversedAppend(Reversed(s[1..]), [s[0]]);
      assert [s[0]][1..] == [];
    }
  }

  lemma {:induction false} ReversedAt<T>(s: seq<T>, k: nat)
    requires k < |s|
    ensures Reversed(s)[k] == s[|s| - 1 - k]
  {
    if k < |s| - 1 { ReversedAt(s[1..], k); }
  }

  ghost predicate NoDup<T>(s: seq<T>) {
    s == [] || (s[0] !in s[1..] && NoDup(s[1..]))
  }

  lemma {:induction false} NoDupIndices<T>(s: seq<T>)
    ensures NoDup(s) <==> forall i, j :: 0 <= i < j < |s| ==> s[i] != s[j]
  {
    if s != [] {
      NoDupIndices(s[1..]);
      if NoDup(s) {
        forall i, j | 0 <= i < j < |s| ensures s[i] != s[j] {
          assert s[j] == s[1..][j - 1];
          if i > 0 { assert s[i] == s[1..][i - 1]; }
        }
      }
      if forall i, j :: 0 <= i < j < |s| ==> s[i] != s[j] {
        assert forall j :: 0 <= j < |s| - 1 ==> s[1..][j] == s[j + 1];
      }
    }
  }

  lemma NoDupAt<T>(s: seq<T>, i: nat, j: nat)
    requires NoDup(s) && i < |s| && j < |s| && i != j
    ensures s[i] != s[j]
  {
    NoDupIndices(s);
  }

  lemma NoElements<T>(s: seq<T>)
    ensures s == [] <==> forall x :: x !in s
  {
    assert |s| > 0 ==> s[0] in s;
  }

  lemma NoDupNil<T>()
    ensures NoDup<T>([])
  {
  }

  lemma NoDupCons<T>(x: T, s: seq<T>)
    requires NoDup(s) && x !in s
    ensures NoDup([x] + s)
  {
    assert ([x] + s)[1..] == s;
  }

  lemma NoDupSnoc<T>(s: seq<T>, x: T)
    requires NoDup(s) && x !in s
    ensures NoDup(s + [x])
  {
    NoDupIndices(s);
    NoDupIndices(s + [x]);
  }

  lemma NoDupInit<T>(s: seq<T>, k: nat)
    requires NoDup(s) && k <= |s|
    ensures NoDup(s[..k]) && NoDup(s[k..])
    ensures forall x :: x in s[..k] ==> x !in s[k..]
  {
    NoDupIndices(s);
    NoDupIndices(s[..k]);
    NoDupIndices(s[k..]);
  }

  function ToSet<T(==)>(s: seq<T>): set<T> {
    set x | x in s
  }

  lemma ToSetSnoc<T>(s: seq<T>, k: nat)
    requires k < |s|
    ensures ToSet(s[..k + 1]) == ToSet(s[..k]) + {s[k]}
  {
  }

  /** Unlinks `x` from a list; a list that does not hold `x` is left alone. */
  function Remove<T(==)>(s: seq<T>, x: T): (r: seq<T>)
    ensures forall y :: y in r ==> y in s
    ensures forall y :: y in s && y != x ==> y in r
    ensures x !in s ==> r == s
    ensures x in s ==> |r| == |s| - 1
    ensures NoDup(s) ==> NoDup(r) && x !in r
  {
    if s == [] then []
    else if s[0] == x then
      assert s == [s[0]] + s[1..];
      s[1..]
    else
      var r := [s[0]] + Remove(s[1..], x);
      assert s == [s[0]] + s[1..];
      assert r[1..] == Remove(s[1..], x);
      r
  }

  lemma {:induction false} RemoveHead<T>(s: seq<T>)
    requires |s| > 0
    ensures Remove(s, s[0]) == s[1..]
  {
  }

  lemma RemoveCons<T>(y: T, s: seq<T>, x: T)
    ensures Remove([y] + s, x) == if y == x then s else [y] + Remove(s, x)
  {
    hide NoDup;
    assert ([y] + s)[1..] == s;
  }

  lemma {:induction false} RemoveMiddle<T>(a: seq<T>, x: T, b: seq<T>)
    requires x !in a
    ensures Remove(a + [x] + b, x) == a + b
  {
    hide NoDup, Remove;
    if a == [] {
      assert a + [x] + b == [x] + b && a + b == b;
      RemoveCons(x, b, x);
    } else {
      var y, rest := a[0], a[1..];
      RemoveMiddle(rest, x, b);
      assert a + [x] + b == [y] + (rest + [x] + b) && a + b == [y] + (rest + b);
      RemoveCons(y, rest + [x] + b, x);
    }
  }

  lemma NoDupMiddle<T>(a: seq<T>, x: T, b: seq<T>)
    requires NoDup(a + [x] + b)
    ensures x !in a && x !in b
  {
    NoDupIndices(a + [x] + b);
    var s := a + [x] + b;
    assert s[|a|] == x;
    forall k | 0 <= k < |a| ensures a[k] != x { assert s[k] == a[k]; }
    forall k | 0 <= k < |b| ensures b[k] != x { assert s[|a| + 1 + k] == b[k]; }
  }

  /** A duplicate-free list over a finite set is no longer than the set. */
  lemma {:induction false} NoDupBound<T>(s: seq<T>, u: set<T>)
    requires NoDup(s)
    requires forall x :: x in s ==> x in u
    ensures |s| <= |u|
    ensures |s| == |u| ==> forall x :: x in u ==> x in s
  {
    if s != [] {
      var init, last := s[..|s| - 1], s[|s| - 1];
      assert s == init + [last];
      NoDupInit(s, |s| - 1);
      assert last in s[|s| - 1..];
      NoDupBound(init, u - {last});
      if |s| == |u| {
        forall x | x in u ensures x in s {
          assert x == last || x in u - {last};
        }
      }
    }
  }

  lemma {:induction false} SubsetSize<T>(a: set<T>, b: set<T>)
    requires a <= b
    ensures |a| <= |b|
  {
    if a != {} {
      var x :| x in a;
      SubsetSize(a - {x}, b - {x});
    }
  }

  /** Some address is free, whatever finite set is in use. */
  lemma {:induction false} FreshExists(used: set<nat>)
    ensures exists n: nat :: n !in used
  {
    var n := UpperBound(used);
    assert n !in used;
  }

  lemma {:induction false} UpperBound(used: set<nat>) returns (n: nat)
    ensures forall m :: m in used ==> m < n
  {
    if used == {} {
      n := 0;
    } else {
      var x :| x in used;
      var k := UpperBound(used - {x});
      n := if x < k then k else x + 1;
      assert forall m :: m in used ==> m == x || m in used - {x};
    }
  }
}
