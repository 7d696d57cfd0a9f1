/** The steps of `inode_from_path`: references come and go, names and numbers stay. */
module Walking {
  import opened Options
  import opened Seqs
  import opened InodeState
  import opened InodeLemmas
  import opened Cascade
  import opened Resolution
  import opened Linking
  import opened Outcomes
  import opened Paths

  /** Two tables that differ in references and lists only, as far as a walk can tell. */
  ghost predicate SameWorld(t: Table, v: Table) {
    SameNames(t, v) && SameInos(t, v) && SameHashed(t, v)
  }

  lemma SameWorldTrans(t: Table, u: Table, v: Table)
    requires SameWorld(t, u) && SameWorld(u, v)
    ensures SameWorld(t, v)
  {
    hide Binds, Names, HasNumber;
  }

  lemma RefWorld(t: Table, i: InodePtr)
    requires i in t.inodes
    ensures SameWorld(t, RefStep(t, i))
  {
    hide SameNames, RefStep;
    RefOutcome(t, i);
    RefEffect(t, i);
  }

  lemma UnrefWorld(t: Table, i: InodePtr)
    requires i in t.inodes && t.inodes[i].ref > 0
    ensures SameWorld(t, UnrefDec(t, i))
  {
    hide Binds, Names;
    SameResolution(t, UnrefDec(t, i));
  }

  /** A directory that is held and in which a name resolves has a second reference. */
  lemma DirectoryShared(v: Table, held: map<InodePtr, nat>, p: InodePtr, name: string, c: InodePtr)
    requires Inv(v, held, {}) && p in v.inodes && v.inodes[p].hashed && p in held && held[p] > 0
    requires Binds(v, v.inodes[p].ino, name, c)
    ensures v.inodes[p].ref > 1 && c in v.inodes && v.inodes[c].hashed
  {
    hide Inv, LinksOk, NumbersOk, NamesOk, NameBucketsOk, ListsOk, Accounts, Tidy;
    InvParts(v, held, {});
    var d :| Names(v, d, v.inodes[p].ino, name) && v.dentries[d].inode == c;
    OnlyDirectory(v, held, d, p, name);
    LinkedDentry(v, d);
    BindsUnique(v, held, v.inodes[p].ino, name, c, c);
    ChildCounts(v, held, p, d);
  }

  lemma ChildCounts(v: Table, held: map<InodePtr, nat>, p: InodePtr, d: DentryPtr)
    requires Accounts(v, held) && p in v.inodes && held[p] > 0 && d in v.inodes[p].childList
    ensures v.inodes[p].ref > 1
  {
  }

  /** The state of a walk that stands at `p` and holds one reference on it. */
  ghost predicate Standing(t: Table, h: map<InodePtr, nat>, v: Table, held: map<InodePtr, nat>, p: InodePtr) {
    && SameWorld(t, v) && p in v.inodes && v.inodes[p].hashed && p in h && held == h[p := h[p] + 1]
  }

  lemma StandStart(t: Table, h: map<InodePtr, nat>, p: InodePtr)
    requires p in t.inodes && t.inodes[p].hashed && p in h
    ensures Standing(t, h, RefStep(t, p), h[p := h[p] + 1], p)
  {
    hide SameWorld, RefStep;
    RefWorld(t, p);
    RefEffect(t, p);
  }

  /** A component that does not resolve ends the walk for every inode. */
  lemma WalkEnds(t: Table, v: Table, par: nat, comps: seq<string>)
    requires SameWorld(t, v) && comps != [] && forall c: InodePtr :: !Binds(v, par, comps[0], c)
    ensures forall i: InodePtr :: !WalksTo(t, par, comps, i)
  {
    hide Binds, Names, HasNumber;
  }

  /** A component that resolves takes the walk to its inode, and to no other. */
  lemma WalkStep(t: Table, h: map<InodePtr, nat>, v: Table, par: nat, comps: seq<string>, c: InodePtr, i: InodePtr)
    requires Inv(t, h, {}) && SameWorld(t, v) && comps != [] && Binds(v, par, comps[0], c) && c in v.inodes
    ensures WalksTo(t, par, comps, i) <==> if |comps| == 1 then i == c else WalksTo(t, v.inodes[c].ino, comps[1..], i)
  {
    hide Inv, Binds, Names, HasNumber;
    assert Binds(t, par, comps[0], c);
    if |comps| == 1 {
      if WalksTo(t, par, comps, i) { BindsUnique(t, h, par, comps[0], i, c); }
    } else {
      if WalksTo(t, par, comps, i) {
        var j :| Binds(t, par, comps[0], j) && j in t.inodes && WalksTo(t, t.inodes[j].ino, comps[1..], i);
        BindsUnique(t, h, par, comps[0], j, c);
      }
    }
  }

  // ---------------------------------------------------------------- facts the methods draw on

  lemma SameBinds(v: Table, u: Table, par: nat, comp: string, c: InodePtr)
    requires SameNames(v, u)
    ensures Binds(v, par, comp, c) <==> Binds(u, par, comp, c)
  {
    hide Binds, Names, HasNumber;
  }

  lemma HeldBack(h: map<InodePtr, nat>, p: InodePtr, c: InodePtr, held: map<InodePtr, nat>, live: set<InodePtr>)
    requires p in h && c in h && h.Keys == live
    requires var w := h[p := h[p] + 1]; var x := w[c := w[c] + 1]; HeldBy(x[p := x[p] - 1], held, live)
    ensures held == h[c := h[c] + 1]
  {
  }

  lemma RootTwice(v: Table, p: InodePtr)
    requires p in v.inodes && v.inodes[p].ref > 0
    ensures RefStep(v, p).inodes[p].ref > 1 && SameWorld(v, RefStep(v, p))
  {
    RefWorld(v, p);
    hide SameWorld;
  }

  lemma StandNames(t: Table, h: map<InodePtr, nat>, v: Table, held: map<InodePtr, nat>, p: InodePtr)
    requires Standing(t, h, v, held, p)
    ensures SameNames(t, v) && p in h && held == h[p := h[p] + 1]
  {
    hide SameNames;
  }

  lemma StandWorld(t: Table, h: map<InodePtr, nat>, v: Table, p: InodePtr)
    requires Standing(t, h, v, h[p := if p in h then h[p] + 1 else 0], p)
    ensures SameWorld(t, v)
  {
    hide SameWorld;
  }

  lemma StandHeld(t: Table, h: map<InodePtr, nat>, v: Table, held: map<InodePtr, nat>, p: InodePtr)
    requires Standing(t, h, v, held, p)
    ensures p in v.inodes && p in held && held[p] > 0 && held[p := held[p] - 1] == h && SameNames(t, v)
  {
    hide SameNames;
  }

  lemma FailedWalk(t: Table, h: map<InodePtr, nat>, v: Table, u: Table, p: InodePtr, held: map<InodePtr, nat>)
    requires SameNames(t, v) && NamesKept(v, u)
    ensures NamesKept(t, u)
  {
    hide Binds, Names, HasNumber;
  }

  lemma WalkNotEmpty(t: Table, par: nat, comps: seq<string>, i: InodePtr)
    requires WalksTo(t, par, comps, i)
    ensures comps != []
  {
  }

  /** An inode whose only name is one in itself is its own directory, and the way up from it never ends. */
  lemma OwnDirectory(t: Table, held: map<InodePtr, nat>, i: InodePtr, name: string)
    requires Inv(t, held, {}) && i in t.inodes && t.inodes[i].hashed && Binds(t, t.inodes[i].ino, name, i)
    requires forall q, n :: Binds(t, q, n, i) ==> q == t.inodes[i].ino
    ensures Cyclic(t, i)
  {
    hide NoDup, LinksOk, NumbersOk, NamesOk, NameBucketsOk, ListsOk, Accounts, Tidy, HashedOnly;
    var ino := t.inodes[i].ino;
    var e :| Names(t, e, ino, name) && t.dentries[e].inode == i;
    LinkedDentry(t, e);
    var hashed := HashedOnly(t.dentries, t.inodes[i].dentryList);
    assert e in hashed;
    var d := hashed[0];
    assert d in hashed;
    ListedDentry(t, i, d);
    LinkedDentry(t, d);
    var p := t.dentries[d].parent;
    assert Names(t, d, t.inodes[p].ino, t.dentries[d].name);
    assert Binds(t, t.inodes[p].ino, t.dentries[d].name, i);
    HashedDirectory(t, d);
    NumberUnique(t, ino, p, i);
    assert Climb(t, i, 0) == Climb(t, i, 1) == Some(i);
  }

  lemma HashedDirectory(t: Table, d: DentryPtr)
    requires NamesOk(t, {}) && d in t.dentries
    ensures t.dentries[d].parent in t.inodes && t.inodes[t.dentries[d].parent].hashed
  {
  }

  /** A new inode linked under itself has no other name. */
  lemma LinkedUnderItself(t: Table, a: Table, m: Table, i: InodePtr, ino: nat, name: string, replaced: Option<InodePtr>)
    requires LinksOk(t) && a == Created(t, i) && i !in t.inodes && LinkedTo(a, m, i, ino, Some(i), name, replaced)
    requires forall j :: j in a.inodes ==> a.inodes[j].ino != ino
    ensures replaced == None && Binds(m, ino, name, i) && forall q, n :: Binds(m, q, n, i) ==> q == ino
    ensures i in m.inodes && m.inodes[i].hashed && m.inodes[i].ino == ino && m.lru == t.lru && m.lruLimit == t.lruLimit
  {
    hide LinksOk, OthersSame, ChildrenMoved, NumbersTo;
    forall q, n | Binds(m, q, n, i) && !(q == ino && n == name) ensures false {
      assert Binds(a, q, n, i);
      var d :| Names(a, d, q, n) && a.dentries[d].inode == i;
      LinkedDentry(t, d);
    }
  }

  /** The path of an inode is the path of the directory it was linked into last, and the name it got there. */
  lemma NewestPath(t: Table, i: InodePtr, p: InodePtr, name: string, chain: seq<DentryPtr>)
    requires Newest(t, i, p, name) && Chain(t, i, chain)
    ensures chain != [] && Chain(t, p, chain[1..]) && (forall k :: 0 <= k < |chain| ==> chain[k] in t.dentries)
    ensures PathOf(t, chain) == PathOf(t, chain[1..]) + "/" + name
  {
    hide PathOf;
    var list := t.inodes[i].dentryList;
    assert Arbit(t.dentries, list) == Some(list[0]) by {
      assert list[..0] == [];
      FirstHashed(t.dentries, list, 0);
    }
    PathStep(t, chain);
  }

  lemma PlainResult(t: Table, i: InodePtr, chain: seq<DentryPtr>)
    requires i in t.inodes && t.inodes[i].ino != 1 && Rooted(t, i, chain)
    ensures PathResult(t, i, None, chain) == (|PathOf(t, chain)|, Some(PathOf(t, chain) + "\0"))
  {
    hide PathOf, Arbit, Chain;
    assert PathOf(t, chain) + "" == PathOf(t, chain);
  }
}
