/** Path strings of `inode_path` and `inode_from_path`, and the walk they describe. */
module Paths {
  import opened Options
  import opened Seqs
  import opened InodeState
  import opened InodeLemmas
  import opened Cascade
  import opened Resolution

  // ---------------------------------------------------------------- strings

  /** Length of the leading part without a slash. */
  function Span(p: string): (n: nat)
    ensures n <= |p| && (n < |p| ==> p[n] == '/')
    ensures forall k :: 0 <= k < n ==> p[k] != '/'
  {
    if p == "" || p[0] == '/' then 0 else 1 + Span(p[1..])
  }

  /** The components that successive calls of `strtok_r` with delimiter "/" return. */
  function Tokens(p: string): (r: seq<string>)
    ensures forall k :: 0 <= k < |r| ==> Plain(r[k])
    decreases |p|
  {
    if p == "" then []
    else if p[0] == '/' then Tokens(p[1..])
    else [p[..Span(p)]] + Tokens(p[Span(p)..])
  }

  /** A component: not empty and free of slashes. */
  predicate Plain(name: string) {
    name != "" && forall k :: 0 <= k < |name| ==> name[k] != '/'
  }

  function Join(names: seq<string>): string {
    if names == [] then "" else "/" + names[0] + Join(names[1..])
  }

  lemma {:induction false} JoinSnoc(names: seq<string>, last: string)
    ensures Join(names + [last]) == Join(names) + "/" + last
  {
    if names == [] {
      assert [] + [last] == [last];
      assert Join([]) == "";
    } else {
      JoinSnoc(names[1..], last);
      assert (names + [last])[1..] == names[1..] + [last];
    }
  }

  lemma {:induction false} SpanPlain(name: string, rest: string)
    requires forall k :: 0 <= k < |name| ==> name[k] != '/'
    requires rest == "" || rest[0] == '/'
    ensures Span(name + rest) == |name|
  {
    if name == "" {
      assert name + rest == rest;
    } else {
      SpanPlain(name[1..], rest);
      assert (name + rest)[1..] == name[1..] + rest;
    }
  }

  lemma TokensFirst(name: string, rest: string)
    requires Plain(name) && (rest == "" || rest[0] == '/')
    ensures Tokens("/" + name + rest) == [name] + Tokens(rest)
  {
    var q := name + rest;
    assert ("/" + name + rest)[1..] == q;
    SpanPlain(name, rest);
    assert q[..|name|] == name && q[|name|..] == rest;
  }

  /** Splitting a joined path gives its components back. */
  lemma {:induction false} TokensJoin(names: seq<string>)
    requires forall k :: 0 <= k < |names| ==> Plain(names[k])
    ensures Tokens(Join(names)) == names
  {
    if names != [] {
      var rest := Join(names[1..]);
      assert Plain(names[0]);
      TokensJoin(names[1..]);
      TokensFirst(names[0], rest);
      assert Join(names) == "/" + names[0] + rest && [names[0]] + names[1..] == names;
    }
  }

  lemma TokensPlain(name: string)
    requires Plain(name)
    ensures Tokens(name) == [name]
  {
    SpanPlain(name, "");
    assert name + "" == name && name[..|name|] == name && name[|name|..] == "";
  }

  /** A slash separates: with the empty path and the plain names this gives the components of every string. */
  lemma {:induction false} TokensSplit(a: string, b: string)
    ensures Tokens("") == [] && Tokens(a + "/" + b) == Tokens(a) + Tokens(b)
    decreases |a|
  {
    var p := a + "/" + b;
    if a == "" {
      assert p[1..] == b;
    } else if a[0] == '/' {
      TokensSplit(a[1..], b);
      assert p[1..] == a[1..] + "/" + b;
    } else {
      var n := Span(a);
      TokensSplit(a[n..], b);
      var rest := a[n..] + "/" + b;
      assert p == a[..n] + rest;
      SpanPlain(a[..n], rest);
      assert p[..n] == a[..n] && p[n..] == rest;
    }
  }

  // ---------------------------------------------------------------- chains of dentries

  /** The dentry `__dentry_search_arbit` picks: the first hashed one, else the first. */
  function Arbit(dentries: map<DentryPtr, Dentry>, list: seq<DentryPtr>): Option<DentryPtr> {
    var hashed := HashedOnly(dentries, list);
    if hashed != [] then Some(hashed[0]) else if list != [] then Some(list[0]) else None
  }

  /** Number `k` of the list: before every hashed one, and hashed itself or the first. */
  ghost predicate Picked(dentries: map<DentryPtr, Dentry>, list: seq<DentryPtr>, k: int) {
    && 0 <= k < |list| && list[k] in dentries && (dentries[list[k]].hashed || k == 0)
    && forall j :: 0 <= j < |list| && list[j] in dentries && dentries[list[j]].hashed ==>
         k <= j && dentries[list[k]].hashed
  }

  lemma PickedAt(dentries: map<DentryPtr, Dentry>, list: seq<DentryPtr>, k: nat)
    requires k < |list| && (forall j :: 0 <= j < |list| ==> list[j] in dentries) && dentries[list[k]].hashed
    requires forall j :: 0 <= j < k ==> !dentries[list[j]].hashed
    ensures Picked(dentries, list, k)
  {
  }

  lemma NonePicked(dentries: map<DentryPtr, Dentry>, list: seq<DentryPtr>)
    requires forall j :: 0 <= j < |list| ==> list[j] in dentries && !dentries[list[j]].hashed
    requires HashedOnly(dentries, list) == []
    ensures list != [] ==> Picked(dentries, list, 0)
    ensures Arbit(dentries, list) == if list == [] then None else Some(list[0])
  {
  }

  /** `chain` is the finite sequence of dentries met on the way up from `i`. */
  ghost predicate Chain(t: Table, i: InodePtr, chain: seq<DentryPtr>)
    decreases |chain|
  {
    i in t.inodes && (forall k :: 0 <= k < |chain| ==> chain[k] in t.dentries) &&
    if chain == [] then Arbit(t.dentries, t.inodes[i].dentryList) == None
    else
      && Arbit(t.dentries, t.inodes[i].dentryList) == Some(chain[0])
      && Chain(t, t.dentries[chain[0]].parent, chain[1..])
  }

  /** The names on a chain, top first. */
  ghost function NamesOn(t: Table, chain: seq<DentryPtr>): seq<string>
    requires forall k :: 0 <= k < |chain| ==> chain[k] in t.dentries
  {
    if chain == [] then [] else NamesOn(t, chain[1..]) + [t.dentries[chain[0]].name]
  }

  /** The inode at the top of a chain. */
  ghost function Top(t: Table, i: InodePtr, chain: seq<DentryPtr>): InodePtr
    requires forall k :: 0 <= k < |chain| ==> chain[k] in t.dentries
    decreases |chain|
  {
    if chain == [] then i else Top(t, t.dentries[chain[0]].parent, chain[1..])
  }

  ghost function PathOf(t: Table, chain: seq<DentryPtr>): string
    requires forall k :: 0 <= k < |chain| ==> chain[k] in t.dentries
  {
    Join(NamesOn(t, chain))
  }

  lemma PathStep(t: Table, chain: seq<DentryPtr>)
    requires chain != [] && forall k :: 0 <= k < |chain| ==> chain[k] in t.dentries
    ensures PathOf(t, chain) == PathOf(t, chain[1..]) + "/" + t.dentries[chain[0]].name
  {
    JoinSnoc(NamesOn(t, chain[1..]), t.dentries[chain[0]].name);
  }

  // ---------------------------------------------------------------- when the way up ends

  /** The inode `n` steps up from `i`, if the way goes on that long. */
  ghost function Climb(t: Table, i: InodePtr, n: nat): (r: Option<InodePtr>)
    ensures r.Some? ==> r.value in t.inodes
    decreases n
  {
    if i !in t.inodes then None
    else if n == 0 then Some(i)
    else
      match Arbit(t.dentries, t.inodes[i].dentryList)
      case None => None
      case Some(d) => if d in t.dentries then Climb(t, t.dentries[d].parent, n - 1) else None
  }

  /** The way up from `i` comes to an inode that it comes back to. */
  ghost predicate Cyclic(t: Table, i: InodePtr) {
    exists a: nat, b: nat :: a < b && Climb(t, i, a).Some? && Climb(t, i, a) == Climb(t, i, b)
  }

  lemma {:induction false} ClimbOn(t: Table, i: InodePtr, n: nat, m: nat)
    requires Climb(t, i, n).Some?
    ensures Climb(t, i, n + m) == Climb(t, Climb(t, i, n).value, m)
    decreases n
  {
    hide Arbit;
    if n > 0 {
      var d := Arbit(t.dentries, t.inodes[i].dentryList).value;
      ClimbOn(t, t.dentries[d].parent, n - 1, m);
    }
  }

  /** A chain is as long as the way up. */
  lemma {:induction false} ChainClimb(t: Table, i: InodePtr, chain: seq<DentryPtr>, n: nat)
    requires Chain(t, i, chain)
    ensures Climb(t, i, n).Some? <==> n <= |chain|
    decreases n
  {
    hide Arbit;
    if n > 0 && chain != [] {
      ChainClimb(t, t.dentries[chain[0]].parent, chain[1..], n - 1);
    }
  }

  /** A way that ends makes a chain. */
  lemma {:induction false} ChainExists(t: Table, i: InodePtr, n: nat)
    requires LinksOk(t) && i in t.inodes && Climb(t, i, n) == None
    ensures exists chain :: Chain(t, i, chain)
    decreases n
  {
    hide NoDup, LinksOk, HashedOnly;
    var list := t.inodes[i].dentryList;
    var next := Arbit(t.dentries, list);
    if next.None? {
      assert Chain(t, i, []);
    } else {
      var d := next.value;
      assert d in list;
      ListedDentry(t, i, d);
      LinkedDentry(t, d);
      hide Arbit;
      ChainExists(t, t.dentries[d].parent, n - 1);
      var rest :| Chain(t, t.dentries[d].parent, rest);
      var chain := [d] + rest;
      assert chain[1..] == rest;
      assert Chain(t, i, chain);
    }
  }

  /** Once round a cycle, the way goes on for ever. */
  lemma {:induction false} CycleGoesOn(t: Table, i: InodePtr, n: nat, m: nat, k: nat)
    requires m > 0 && Climb(t, i, n).Some? && Climb(t, i, n) == Climb(t, i, n + m)
    ensures Climb(t, i, n + k * m) == Climb(t, i, n)
    decreases k
  {
    hide Climb;
    if k > 0 {
      CycleGoesOn(t, i, n, m, k - 1);
      ClimbOn(t, i, n + (k - 1) * m, m);
      ClimbOn(t, i, n, m);
      assert n + (k - 1) * m + m == n + k * m;
    }
  }

  /** `inode_path` comes to an end exactly if the way up from the inode does not run in a cycle. */
  lemma PathEnds(t: Table, i: InodePtr)
    requires LinksOk(t) && i in t.inodes
    ensures (exists chain :: Chain(t, i, chain)) <==> !Cyclic(t, i)
  {
    hide LinksOk, Chain, Climb;
    if Cyclic(t, i) {
      var n: nat, b: nat :| n < b && Climb(t, i, n).Some? && Climb(t, i, n) == Climb(t, i, b);
      var m: nat := b - n;
      forall chain ensures !Chain(t, i, chain) {
        if Chain(t, i, chain) {
          var far := n + (|chain| + 1) * m;
          assert (|chain| + 1) * m >= |chain| + 1;
          CycleGoesOn(t, i, n, m, |chain| + 1);
          ChainClimb(t, i, chain, far);
          assert false;
        }
      }
    } else {
      NoCycleEnds(t, i);
    }
  }

  lemma NoCycleEnds(t: Table, i: InodePtr)
    requires LinksOk(t) && i in t.inodes && !Cyclic(t, i)
    ensures exists chain :: Chain(t, i, chain)
  {
    hide LinksOk, Chain, Climb;
    var size := |t.inodes| + 1;
    if n: nat :| Climb(t, i, n) == None {
      ChainExists(t, i, n);
    } else {
      var s := seq(size, k requires 0 <= k < size => Climb(t, i, k).value);
      forall a, b | 0 <= a < b < |s| ensures s[a] != s[b] {
        if s[a] == s[b] { assert false; }
      }
      NoDupIndices(s);
      NoDupBound(s, t.inodes.Keys);
      assert false;
    }
  }

  // ---------------------------------------------------------------- walks

  /** Looking the components up one after the other, from directory number `par`, ends at `i`. */
  ghost predicate WalksTo(t: Table, par: nat, comps: seq<string>, i: InodePtr)
    decreases |comps|
  {
    comps != [] &&
    if |comps| == 1 then Binds(t, par, comps[0], i)
    else exists j :: Binds(t, par, comps[0], j) && j in t.inodes && WalksTo(t, t.inodes[j].ino, comps[1..], i)
  }

  lemma {:induction false} WalkSnoc(t: Table, par: nat, comps: seq<string>, j: InodePtr, name: string, i: InodePtr)
    requires WalksTo(t, par, comps, j) && j in t.inodes && Binds(t, t.inodes[j].ino, name, i)
    ensures WalksTo(t, par, comps + [name], i)
    decreases |comps|
  {
    assert (comps + [name])[1..] == comps[1..] + [name];
    if |comps| == 1 {
      assert (comps + [name])[1..] == [name];
      assert WalksTo(t, t.inodes[j].ino, [name], i);
    } else {
      var k :| Binds(t, par, comps[0], k) && k in t.inodes && WalksTo(t, t.inodes[k].ino, comps[1..], j);
      WalkSnoc(t, t.inodes[k].ino, comps[1..], j, name, i);
    }
  }

  /** A chain of hashed dentries that ends at number 1. */
  ghost predicate Rooted(t: Table, i: InodePtr, chain: seq<DentryPtr>) {
    && chain != [] && Chain(t, i, chain)
    && (forall k :: 0 <= k < |chain| ==>
          chain[k] in t.dentries && t.dentries[chain[k]].hashed && Plain(t.dentries[chain[k]].name))
    && Top(t, i, chain) in t.inodes && t.inodes[Top(t, i, chain)].ino == 1
  }

  lemma ArbitOwn(t: Table, i: InodePtr, d: DentryPtr)
    requires LinksOk(t) && i in t.inodes && Arbit(t.dentries, t.inodes[i].dentryList) == Some(d)
    ensures d in t.dentries && t.dentries[d].inode == i && t.dentries[d].parent in t.inodes
  {
    hide NoDup;
    assert d in t.inodes[i].dentryList;
  }

  /** The names of a rooted chain lead from the root back to its inode. */
  lemma {:induction false} ChainWalk(t: Table, i: InodePtr, chain: seq<DentryPtr>)
    requires LinksOk(t) && Rooted(t, i, chain)
    ensures WalksTo(t, 1, NamesOn(t, chain), i)
    ensures forall k :: 0 <= k < |NamesOn(t, chain)| ==> Plain(NamesOn(t, chain)[k])
    decreases |chain|
  {
    hide LinksOk, Arbit;
    var d := chain[0];
    var p := t.dentries[d].parent;
    ArbitOwn(t, i, d);
    assert Names(t, d, t.inodes[p].ino, t.dentries[d].name);
    if |chain| == 1 {
      assert chain[1..] == [];
      assert Top(t, i, chain) == p;
      assert NamesOn(t, chain) == [t.dentries[d].name];
    } else {
      assert forall k :: 0 <= k < |chain[1..]| ==> chain[1..][k] == chain[k + 1];
      ChainWalk(t, p, chain[1..]);
      WalkSnoc(t, 1, NamesOn(t, chain[1..]), p, t.dentries[d].name, i);
    }
  }

  /** The path of a rooted chain, split again, walks back to the inode it was made for. */
  lemma PathRoundTrip(t: Table, i: InodePtr, chain: seq<DentryPtr>)
    requires LinksOk(t) && Rooted(t, i, chain)
    ensures Tokens(PathOf(t, chain)) == NamesOn(t, chain)
    ensures WalksTo(t, 1, Tokens(PathOf(t, chain)), i)
  {
    ChainWalk(t, i, chain);
    TokensJoin(NamesOn(t, chain));
  }

  /** Numbers resolve to one inode, names to one inode: so does a walk. */
  lemma {:induction false} WalkUnique(t: Table, held: map<InodePtr, nat>, par: nat, comps: seq<string>, i: InodePtr,
      j: InodePtr)
    requires Inv(t, held, {}) && WalksTo(t, par, comps, i) && WalksTo(t, par, comps, j)
    ensures i == j
    decreases |comps|
  {
    hide Inv, Binds;
    if |comps| == 1 {
      BindsUnique(t, held, par, comps[0], i, j);
    } else {
      var a :| Binds(t, par, comps[0], a) && a in t.inodes && WalksTo(t, t.inodes[a].ino, comps[1..], i);
      var b :| Binds(t, par, comps[0], b) && b in t.inodes && WalksTo(t, t.inodes[b].ino, comps[1..], j);
      BindsUnique(t, held, par, comps[0], a, b);
      WalkUnique(t, held, t.inodes[a].ino, comps[1..], i, j);
    }
  }

  // ---------------------------------------------------------------- what inode_path returns

  const ENOENT: int := 2

  function Suffix(name: Option<string>): string {
    if name.Some? then "/" + name.value else ""
  }

  /**
  The value and the buffer `inode_path` gives: "/" for number 1 itself, no buffer for another inode
  without dentries, and otherwise the names of the chain, filling the buffer exactly up to its NUL.
  */
  ghost function PathResult(t: Table, i: InodePtr, name: Option<string>, chain: seq<DentryPtr>): (int, Option<string>)
    requires i in t.inodes && forall k :: 0 <= k < |chain| ==> chain[k] in t.dentries
  {
    if t.inodes[i].ino == 1 && name.None? then (1, Some("/\0"))
    else if t.inodes[i].ino != 1 && chain == [] then (-ENOENT, None)
    else
      var full := PathOf(t, chain) + Suffix(name);
      (|full|, Some(full + "\0"))
  }

  /** After the optional trailing name has been put, the buffer holds the end of the full path. */
  lemma FilledStart(t: Table, chain: seq<DentryPtr>, name: Option<string>, c: nat, buf: string)
    requires forall k :: 0 <= k < |chain| ==> chain[k] in t.dentries
    requires c == |PathOf(t, chain)| && |buf| == c + |Suffix(name)| + 1
    requires buf[c..] == Suffix(name) + "\0"
    ensures buf[c..] == (PathOf(t, chain) + Suffix(name))[c..] + "\0"
  {
    hide PathOf;
  }

  /** Putting one more component in front extends the filled end of the path. */
  lemma FilledStep(full: string, c: nat, name: string, before: string, after: string)
    requires |name| + 1 <= c <= |full| && |before| == |full| + 1
    requires full[c - |name| - 1..c] == "/" + name && before[c..] == full[c..] + "\0"
    requires after == before[..c - |name| - 1] + "/" + name + before[c..]
    ensures after[c - |name| - 1..] == full[c - |name| - 1..] + "\0"
  {
    var b := c - |name| - 1;
    assert after[b..] == "/" + name + before[c..];
    assert full[b..] == full[b..c] + full[c..];
  }

  lemma PathPrefix(full: string, head: string, name: string)
    requires head + "/" + name <= full
    ensures head <= full && full[|head|..|head| + 1 + |name|] == "/" + name
  {
    var p := head + "/" + name;
    assert p == full[..|p|];
    assert full[|head|..|p|] == p[|head|..];
  }

  lemma PathNil(t: Table)
    ensures PathOf(t, []) == ""
  {
  }

  lemma PathLength(t: Table, chain: seq<DentryPtr>)
    requires forall k :: 0 <= k < |chain| ==> chain[k] in t.dentries
    ensures PathOf(t, chain) == "" <==> chain == []
  {
    if chain != [] {
      PathStep(t, chain);
    }
  }

  lemma {:induction false} FirstHashed(dentries: map<DentryPtr, Dentry>, list: seq<DentryPtr>, k: nat)
    requires k < |list| && HashedOnly(dentries, list[..k]) == [] && list[k] in dentries
    ensures dentries[list[k]].hashed ==> Arbit(dentries, list) == Some(list[k])
    ensures !dentries[list[k]].hashed ==> HashedOnly(dentries, list[..k + 1]) == []
  {
    hide HashedOnly;
    HashedOnlySnoc(dentries, list[..k], list[k]);
    assert list[..k + 1] == list[..k] + [list[k]];
    if dentries[list[k]].hashed {
      HashedOnlyAppend(dentries, list[..k + 1], list[k + 1..]);
      assert list == list[..k + 1] + list[k + 1..];
    }
  }

  lemma {:induction false} HashedOnlyAppend(dentries: map<DentryPtr, Dentry>, a: seq<DentryPtr>, b: seq<DentryPtr>)
    ensures HashedOnly(dentries, a + b) == HashedOnly(dentries, a) + HashedOnly(dentries, b)
  {
    hide HashedOnly;
    if a == [] {
      assert a + b == b;
      HashedOnlyNil(dentries);
    } else {
      HashedOnlyAppend(dentries, a[1..], b);
      HashedOnlyCons(dentries, a);
      HashedOnlyCons(dentries, a + b);
      assert (a + b)[1..] == a[1..] + b && (a + b)[0] == a[0];
    }
  }

  lemma HashedOnlyCons(dentries: map<DentryPtr, Dentry>, s: seq<DentryPtr>)
    requires s != []
    ensures HashedOnly(dentries, s)
         == (if s[0] in dentries && dentries[s[0]].hashed then [s[0]] else []) + HashedOnly(dentries, s[1..])
  {
  }
}
