/** What a public operation leaves behind once its evictions are done. */
module Outcomes {
  import opened Options
  import opened Seqs
  import opened InodeState
  import opened InodeLemmas
  import opened DentryLemmas
  import opened Cascade
  import opened Resolution
  import opened Replacement
  import opened Linking

  /** Names resolve as before, except to inodes that are gone. */
  ghost predicate NamesKept(t: Table, u: Table) {
    forall par, name, j :: Binds(u, par, name, j) <==> Binds(t, par, name, j) && j in u.inodes
  }

  ghost predicate NumbersKept(t: Table, u: Table) {
    forall ino, j: InodePtr :: HasNumber(u, ino, j) <==> HasNumber(t, ino, j) && j in u.inodes
  }

  lemma SettledAll(t: Table, u: Table)
    requires Settles(t, u) && LinksOk(t) && LinksOk(u)
    ensures NamesKept(t, u) && NumbersKept(t, u)
  {
    hide Settles, LinksOk, Binds, HasNumber;
    forall par, name, j ensures Binds(u, par, name, j) <==> Binds(t, par, name, j) && j in u.inodes {
      SettledNames(t, u, par, name, j);
    }
    forall ino, j: InodePtr ensures HasNumber(u, ino, j) <==> HasNumber(t, ino, j) && j in u.inodes {
      SettledNumbers(t, u, ino, j);
    }
  }

  lemma EvictSettle(a: Table, m: Table, u: Table)
    requires Evicts(a, m) && Settles(m, u) && (forall i :: i in m.purge ==> i !in u.inodes) && LinksOk(m)
    ensures Settles(a, u)
  {
    hide NoDup;
    forall i | i in u.inodes ensures Stays(a, u, i) {
      assert Stays(a, m, i) && Stays(m, u, i);
    }
  }

  // ---------------------------------------------------------------- a removed dentry

  /** Inode `x` has lost `name` in directory number `par`; no other name has changed. */
  ghost predicate Unnamed(t: Table, u: Table, x: InodePtr, par: nat, name: string) {
    forall q, n, j :: Binds(u, q, n, j) <==> Binds(t, q, n, j) && !(q == par && n == name && j == x)
  }

  /** Dentries and children aside, the inodes and their lists are the same. */
  ghost predicate SameInodes(t: Table, u: Table) {
    && u.inodes.Keys == t.inodes.Keys && u.root == t.root && u.lruLimit == t.lruLimit
    && u.lru == t.lru && u.purge == t.purge
    && forall i :: i in t.inodes ==>
         u.inodes[i] == t.inodes[i].(dentryList := u.inodes[i].dentryList, childList := u.inodes[i].childList)
  }

  lemma DetachedInodes(t: Table, d: DentryPtr)
    requires d in t.dentries && t.dentries[d].parent in t.inodes && t.dentries[d].inode in t.inodes
    requires |t.nameHash| == HASHSIZE
    ensures SameInodes(t, Detach(t, d))
  {
    assert Detach(t, d).lru == t.lru && Detach(t, d).purge == t.purge;
    hide Detach, Remove;
    DetachShape(t, d);
    forall i | i in t.inodes
      ensures Detach(t, d).inodes[i]
        == t.inodes[i].(dentryList := Detach(t, d).inodes[i].dentryList, childList := Detach(t, d).inodes[i].childList)
    {
      DetachAt(t, d, i);
    }
  }

  lemma DetachedNames(t: Table, u: Table, held: map<InodePtr, nat>, d: DentryPtr)
    requires Inv(t, held, {}) && d in t.dentries && t.dentries[d].parent in t.inodes
    requires SameInos(t, u) && u.dentries == t.dentries - {d}
    ensures Unnamed(t, u, t.dentries[d].inode, t.inodes[t.dentries[d].parent].ino, t.dentries[d].name)
  {
    hide LinksOk, NameBucketsOk, ListsOk, Accounts, Tidy, NumbersOk;
    var x, par, name := t.dentries[d].inode, t.inodes[t.dentries[d].parent].ino, t.dentries[d].name;
    forall q, n, j ensures Binds(u, q, n, j) <==> Binds(t, q, n, j) && !(q == par && n == name && j == x) {
      if Binds(u, q, n, j) {
        var e :| Names(u, e, q, n) && u.dentries[e].inode == j;
        assert Names(t, e, q, n);
        if q == par && n == name && j == x {
          SameDentry(t, held, d, e);
        }
      }
      if Binds(t, q, n, j) && !(q == par && n == name && j == x) {
        var e :| Names(t, e, q, n) && t.dentries[e].inode == j;
        assert Names(u, e, q, n);
      }
    }
  }

  /** One inode has one dentry for a name in a directory number. */
  lemma SameDentry(t: Table, held: map<InodePtr, nat>, d: DentryPtr, e: DentryPtr)
    requires Inv(t, held, {}) && d in t.dentries && e in t.dentries && t.dentries[d].inode == t.dentries[e].inode
    requires t.dentries[d].parent in t.inodes && t.dentries[e].parent in t.inodes
    requires t.inodes[t.dentries[d].parent].ino == t.inodes[t.dentries[e].parent].ino
    requires t.dentries[d].name == t.dentries[e].name
    ensures d == e
  {
    hide NoDup, LinksOk, NameBucketsOk, ListsOk, Accounts, Tidy;
    assert SameNumber(t.inodes[t.dentries[d].parent], t.inodes[t.dentries[e].parent]);
    assert Clash(t.dentries[d], t.dentries[e]);
  }

  lemma DetachDentries(t: Table, d: DentryPtr)
    requires d in t.dentries && t.dentries[d].parent in t.inodes && t.dentries[d].inode in t.inodes
    requires |t.nameHash| == HASHSIZE
    ensures SameInos(t, Detach(t, d)) && Detach(t, d).dentries == t.dentries - {d} && Detach(t, d).purge == t.purge
  {
    hide Remove, HashName;
  }

  /** All inodes stay as they are, but for references, children and the dentries of `x`. */
  ghost predicate Undisturbed(t: Table, u: Table) {
    && u.inodes.Keys == t.inodes.Keys && u.root == t.root && u.lruLimit == t.lruLimit
    && u.lru == t.lru && u.purge == t.purge
    && forall i :: i in t.inodes ==>
         && u.inodes[i].ino == t.inodes[i].ino && u.inodes[i].mode == t.inodes[i].mode
         && u.inodes[i].nlookup == t.inodes[i].nlookup && u.inodes[i].generation == t.inodes[i].generation
         && u.inodes[i].hashed == t.inodes[i].hashed && (u.inodes[i].ref > 0 <==> t.inodes[i].ref > 0)
  }

  lemma ReleasedFacts(t: Table, u: Table, held: map<InodePtr, nat>, d: DentryPtr)
    requires ReleasedOne(t, u, d) && Inv(t, held, {}) && held[t.dentries[d].parent] > 0
    ensures Undisturbed(t, u)
    ensures Unnamed(t, u, t.dentries[d].inode, t.inodes[t.dentries[d].parent].ino, t.dentries[d].name)
  {
    hide LinksOk, NamesOk, NumbersOk, NameBucketsOk, ListsOk, Tidy, Accounts, Remove, Detach, NoDup, Binds;
    InvParts(t, held, {});
    SharedParent(t, held, d);
    DetachShape(t, d);
    DetachedInodes(t, d);
    DetachDentries(t, d);
    DetachedNames(t, u, held, d);
  }

  lemma UndisturbedNames(t: Table, u: Table)
    requires Undisturbed(t, u)
    ensures forall ino, j: InodePtr :: HasNumber(u, ino, j) <==> HasNumber(t, ino, j)
  {
  }

  // ---------------------------------------------------------------- the root

  /** The root is hashed as number 1, and referenced or without a limit to be evicted by. */
  ghost predicate RootSafe(t: Table) {
    HasNumber(t, 1, t.root) && (t.inodes[t.root].ref > 0 || t.lruLimit == 0)
  }

  lemma RootShed(t: Table, m: Table)
    requires RootSafe(t) && ListsOk(t) && Shed(t, m) && Evicts(t, m)
    ensures RootSafe(m)
  {
    hide NoDup, Loose, Looked;
    if m.root in m.purge && m.root !in t.purge {
      NotLoose(t, m, t.root);
    }
    assert m.root in m.purge || Stays(t, m, t.root);
  }

  lemma NotLoose(t: Table, m: Table, i: InodePtr)
    requires Shed(t, m) && i in t.inodes && t.inodes[i].ino == 1 && i !in t.purge
    ensures i !in m.purge
  {
    assert m.purge == t.purge + m.purge[|t.purge|..];
  }

  lemma RootPruned(m: Table, u: Table, queue: seq<InodePtr>)
    requires RootSafe(m) && ListsOk(m) && Settles(m, u) && Pruned(m, u, queue)
    ensures RootSafe(u)
  {
    hide NoDup;
    assert m.root !in m.purge;
    assert m.root in u.inodes;
    assert Stays(m, u, m.root);
  }

  lemma RootLinked(t: Table, u: Table, i: InodePtr, ino: nat, dir: Option<nat>, name: string,
                   replaced: Option<InodePtr>)
    requires RootSafe(t) && Linked(t, u, i, ino, dir, name, replaced) && u.inodes[i].ref > 0
    requires t.inodes[i].ino == 0 || t.inodes[i].ino == ino
    ensures RootSafe(u)
  {
    hide Binds, BindsThrough, NumbersTo, LinkedNames, ChildrenMoved, Remove;
  }

  lemma RootRef(t: Table, i: InodePtr)
    requires RootSafe(t) && i in t.inodes
    ensures RootSafe(RefStep(t, i))
  {
    hide Remove;
  }

  // ---------------------------------------------------------------- after pruning

  /** A dentry of an inode in use outlives evictions, and so does its directory. */
  lemma StaleStays(m: Table, u: Table, i: InodePtr, p: InodePtr)
    requires Stale(m, i, p) && Settles(m, u) && LinksOk(m) && LinksOk(u) && i in u.inodes && u.inodes[i].ref > 0
    ensures Stale(u, i, p)
  {
    hide LinksOk;
    var d :| StaleAt(m, i, p, d);
    LinkedDentry(m, d);
    assert Stays(m, u, i);
    ListedDentry(u, i, d);
    LinkedDentry(u, d);
    assert Stays(m, u, p);
    assert StaleAt(u, i, p, d);
  }

  lemma PrunedPurge(m: Table, u: Table, queue: seq<InodePtr>)
    requires Pruned(m, u, queue)
    ensures forall i :: i in m.purge ==> i !in u.inodes
  {
  }

  lemma HeldStays(before: map<InodePtr, nat>, after: map<InodePtr, nat>, live: set<InodePtr>, i: InodePtr)
    requires HeldBy(before, after, live) && i in before && before[i] > 0
    ensures i in live && i in after && after[i] == before[i]
  {
  }

  /** Where the last reference goes, the inode goes to the end of the lru list or to purge. */
  lemma IdleEnds(t: Table, m: Table, i: InodePtr)
    requires Fades(t, m, {}) && ListsOk(m) && i in t.inodes && i in m.inodes
    requires t.inodes[i].ino != 1 && t.inodes[i].ref > 0 && m.inodes[i].ref == 0
    ensures if Looked(t, i) then i in m.lru else i in m.purge
  {
    hide NoDup, HashedOnly;
    assert InodeFades(t.inodes[i], m.inodes[i], HashedOnly(t.dentries, t.inodes[i].dentryList), false);
  }

  lemma ShedSelf(t: Table)
    ensures Shed(t, t)
  {
  }

  lemma DetachLists(t: Table, held: map<InodePtr, nat>, d: DentryPtr)
    requires Inv(t, held, {}) && d in t.dentries && t.dentries[d].parent in t.inodes && t.dentries[d].inode in t.inodes
    requires |t.nameHash| == HASHSIZE
    ensures ListsOk(Detach(t, d))
  {
    hide LinksOk, NamesOk, NumbersOk, NameBucketsOk, ListsOk, Tidy, Accounts, Detach;
    DetachKeepsLists(t, d);
  }

  lemma DetachKeepsLists(t: Table, d: DentryPtr)
    requires ListsOk(t) && d in t.dentries && t.dentries[d].parent in t.inodes && t.dentries[d].inode in t.inodes
    requires |t.nameHash| == HASHSIZE
    ensures ListsOk(Detach(t, d))
  {
    hide NoDup, Remove, HashName;
  }

  lemma RootUnlinked(t: Table, mid: Table, low: Table)
    requires RootSafe(t) && ListsOk(t) && SameInodes(t, mid) && Shed(mid, low) && Evicts(mid, low)
    ensures RootSafe(low)
  {
    hide NoDup, Loose, Looked;
    assert t.root !in t.purge;
    NotLoose(mid, low, t.root);
    assert Stays(mid, low, t.root);
  }

  lemma RenamedLists(t: Table, u: Table, x: InodePtr, sp: nat, sn: string, dp: nat, dn: string)
    requires RenamedTo(t, u, x, sp, sn, dp, dn) && t.purge == []
    ensures u.purge == [] && u.lru == t.lru && u.lruLimit == t.lruLimit && (RootSafe(t) ==> RootSafe(u))
  {
    hide Binds;
    NoElements(u.purge);
  }

  lemma RootCreated(t: Table, i: InodePtr)
    requires i !in t.inodes
    ensures RootSafe(t) ==> RootSafe(Created(t, i))
  {
  }

  lemma RootOnceHeld(t: Table)
    requires HasNumber(t, 1, t.root)
    ensures RootSafe(RefStep(t, t.root))
  {
    hide Remove;
  }

  // ---------------------------------------------------------------- crowding out the root

  lemma NewNumber(a: Table, mid: Table, i: InodePtr, ino: nat, replaced: Option<InodePtr>)
    requires LinkedTo(a, mid, i, ino, None, "", replaced) && forall j :: j in a.inodes ==> a.inodes[j].ino != ino
    ensures replaced == None && mid.lru == a.lru && mid.lruLimit == a.lruLimit && mid.root == a.root && i in a.inodes
    ensures i in mid.inodes
    ensures mid.inodes == a.inodes[i := a.inodes[i].(ino := ino, mode := mid.inodes[i].mode, hashed := true)]
  {
    hide Binds, BindsThrough, NumbersTo, LinkedNames, OthersSame, ChildrenMoved;
  }

  lemma PurgedNone(a: Table, mid: Table, held: map<InodePtr, nat>, ino: nat)
    requires PurgedBy(a, mid, held, ino, None) && a.purge == []
    ensures mid.purge == []
  {
    NoElements(mid.purge);
  }

  /** One more lookup on `i`, whose number nobody else has. */
  lemma LookedUp(t: Table, a: Table, m: Table, b: Table, i: InodePtr, ino: nat)
    requires a == Created(t, i) && i !in t.inodes && HasNumber(t, 1, t.root) && ino != 1 && NumbersOk(m)
    requires i in m.inodes
    requires m.inodes == a.inodes[i := a.inodes[i].(ino := ino, mode := m.inodes[i].mode, hashed := true)]
    requires m.lru == a.lru && m.lruLimit == a.lruLimit && m.root == a.root && b == m.(inodes := b.inodes)
    requires exists x ::
      HasNumber(m, ino, x) && b.inodes == m.inodes[x := m.inodes[x].(nlookup := m.inodes[x].nlookup + 1)]
    ensures Looked(b, i) && b.inodes[i].ref == 1 && b.inodes[i].ino != 1 && HasNumber(b, 1, b.root)
    ensures b.lru == t.lru && b.lruLimit == t.lruLimit && b.root == t.root
  {
    hide NumbersOk;
    var x :| HasNumber(m, ino, x) && b.inodes == m.inodes[x := m.inodes[x].(nlookup := m.inodes[x].nlookup + 1)];
    NumberUnique(m, ino, x, i);
  }

  /** The newcomer has joined the queue behind the root, which has moved up or gone. */
  lemma CrowdedOut(b: Table, mid: Table, u: Table, i: InodePtr, queue: seq<InodePtr>, k: nat) returns (k': nat)
    requires Shed(b, mid) && Pruned(mid, u, queue) && ListsOk(b) && ListsOk(u) && NumbersKept(b, u)
    requires mid.lruLimit == b.lruLimit
    requires k < |b.lru| <= b.lruLimit && b.lru[k] == b.root && HasNumber(b, 1, b.root)
    requires Looked(b, i) && i in mid.lru
    ensures b.root in u.inodes ==>
      && k' < |u.lru| && u.lru[k'] == b.root && HasNumber(u, 1, b.root)
      && b.lruLimit - |u.lru| + k' < b.lruLimit - |b.lru| + k
  {
    hide NoDup, Loose;
    assert i !in b.lru;
    assert |mid.lru| > |b.lru| by { if mid.lru == b.lru { assert false; } }
    var n := |queue| - |u.lru|;
    assert queue[k] == b.root;
    if k < n {
      assert queue[..n][k] == b.root;
      k' := 0;
    } else {
      k' := k - n;
      assert u.lru[k'] == queue[k];
    }
  }

  lemma SettledRoot(t: Table, u: Table)
    requires Settles(t, u)
    ensures u.root == t.root && u.lruLimit == t.lruLimit
  {
    hide Stays;
  }

  lemma IdlePlace(t: Table, held: map<InodePtr, nat>, i: InodePtr) returns (k: nat)
    requires Inv(t, held, {}) && i in t.inodes && t.inodes[i].ref == 0 && t.inodes[i].hashed
    ensures k < |t.lru| && t.lru[k] == i
  {
    hide NoDup, Graph, Accounts, Tidy;
    k :| 0 <= k < |t.lru| && t.lru[k] == i;
  }

  // ---------------------------------------------------------------- a new table

  /** A table with the root alone: hashed as number 1, without references, on the lru list. */
  function RootOnly(limit: nat): Table {
    Table(map[0 := Inode(1, 16877, 0, 0, 0, true, [], [])], map[],
      seq(HASHSIZE, b => if b == 1 then [0] else []), seq(HASHSIZE, b => []),
      [], 0, [0], 1, [], 0, limit, 0)
  }

  lemma RootOnlyOk(limit: nat)
    ensures Inv(RootOnly(limit), map[0 := 0], {})
  {
    var t := RootOnly(limit);
    assert LinksOk(t) && NamesOk(t, {}) && NameBucketsOk(t) && Tidy(t, {}) && Accounts(t, map[0 := 0]);
    hide LinksOk, NamesOk, NameBucketsOk, Tidy, Accounts;
    assert NumbersOk(t) && ListsOk(t);
  }

  // ---------------------------------------------------------------- a new inode

  function Created(t: Table, i: InodePtr): Table {
    t.(inodes := t.inodes[i := Inode(0, 0, 0, 0, 1, false, [], [])],
       active := [i] + t.active, activeSize := t.activeSize + 1)
  }

  lemma CreatedGraph(t: Table, i: InodePtr)
    requires LinksOk(t) && NumbersOk(t) && NamesOk(t, {}) && NameBucketsOk(t) && Tidy(t, {}) && i !in t.inodes
    ensures NumbersOk(Created(t, i)) && NamesOk(Created(t, i), {}) && NameBucketsOk(Created(t, i))
    ensures Tidy(Created(t, i), {})
  {
    hide NoDup, HashInode, HashName;
    var u := Created(t, i);
    assert forall d :: d in t.dentries ==> NameBucket(t, d) == NameBucket(u, d);
    forall j, k | j in u.inodes && k in u.inodes && SameNumber(u.inodes[j], u.inodes[k]) ensures j == k {
      assert SameNumber(t.inodes[j], t.inodes[k]);
    }
    forall d, e | d in u.dentries && e in u.dentries && Clash(u.dentries[d], u.dentries[e]) ensures d == e {
      assert Clash(t.dentries[d], t.dentries[e]);
    }
  }

  lemma CreatedLinks(t: Table, i: InodePtr)
    requires LinksOk(t) && i !in t.inodes
    ensures LinksOk(Created(t, i))
  {
    hide NoDup;
    NoDupNil<DentryPtr>();
  }

  lemma CreatedLists(t: Table, held: map<InodePtr, nat>, i: InodePtr)
    requires ListsOk(t) && Accounts(t, held) && i !in t.inodes
    ensures ListsOk(Created(t, i)) && Accounts(Created(t, i), held[i := 1])
  {
    hide NoDup;
    NoDupCons(i, t.active);
  }

  lemma CreatedKeeps(t: Table, held: map<InodePtr, nat>, i: InodePtr)
    requires Inv(t, held, {}) && i !in t.inodes
    ensures Inv(Created(t, i), held[i := 1], {})
  {
    hide LinksOk, NamesOk, NumbersOk, NameBucketsOk, ListsOk, Tidy, Accounts, Created;
    CreatedGraph(t, i);
    CreatedLinks(t, i);
    CreatedLists(t, held, i);
  }

  /** A new inode has no number and no name: nothing resolves differently. */
  lemma CreatedResolution(t: Table, i: InodePtr)
    requires LinksOk(t) && i !in t.inodes
    ensures SameNames(t, Created(t, i))
  {
    hide NoDup;
    var u := Created(t, i);
    assert forall d: DentryPtr, par, name :: Names(u, d, par, name) <==> Names(t, d, par, name);
    forall par, name, j ensures Binds(u, par, name, j) <==> Binds(t, par, name, j) {
      if Binds(u, par, name, j) {
        var d :| Names(u, d, par, name) && u.dentries[d].inode == j;
        assert Names(t, d, par, name);
      }
      if Binds(t, par, name, j) {
        var d :| Names(t, d, par, name) && t.dentries[d].inode == j;
        assert Names(u, d, par, name);
      }
    }
  }

  // ---------------------------------------------------------------- facts the public methods draw on

  lemma RefFields(t: Table, i: InodePtr)
    requires ListsOk(t) && i in t.inodes
    ensures var u := RefStep(t, i);
      && u.inodes == t.inodes[i := t.inodes[i].(ref := t.inodes[i].ref + 1)] && u.dentries == t.dentries
      && i in u.active && u.lru == (if t.inodes[i].ref > 0 then t.lru else Remove(t.lru, i))
  {
    hide NoDup, Remove;
  }

  lemma RefOutcome(t: Table, i: InodePtr)
    requires i in t.inodes
    ensures SameNames(t, RefStep(t, i))
    ensures |RefStep(t, i).lru| <= |t.lru| && RefStep(t, i).lruLimit == t.lruLimit
    ensures t.purge == [] ==> RefStep(t, i).purge == []
  {
    hide Binds, Names;
    RefEffect(t, i);
    SameResolution(t, RefStep(t, i));
  }

  lemma FreshUnlisted(t: Table, i: InodePtr)
    requires ListsOk(t) && i !in t.inodes
    ensures i !in t.active && i !in t.lru && i !in t.purge
  {
    hide NoDup;
  }

  /** `__inode_create` puts the inode at the head of the lru list; its first reference takes it off again. */
  lemma CreateThenRef(t: Table, i: InodePtr)
    requires i !in t.inodes && i !in t.active && i !in t.lru && i !in t.purge
    ensures var w := t.(inodes := t.inodes[i := Inode(0, 0, 0, 0, 0, false, [], [])],
                        lru := [i] + t.lru, lruSize := t.lruSize + 1);
      RefStep(w, i) == Created(t, i)
  {
    RemoveHead([i] + t.lru);
    assert ([i] + t.lru)[0] == i;
  }

  lemma UnrefReady(t: Table, held: map<InodePtr, nat>, i: InodePtr)
    requires Accounts(t, held) && i in t.inodes && held[i] > 0
    ensures t.inodes[i].ref > 0
  {
  }

  /** The callers' references after an operation: those of `before`, on the inodes still there; none is lost. */
  ghost predicate HeldBy(before: map<InodePtr, nat>, after: map<InodePtr, nat>, live: set<InodePtr>) {
    && after == (map i | i in before && i in live :: before[i])
    && forall i :: i in before && before[i] > 0 ==> i in live
  }

  lemma LookupsChange(t: Table, held: map<InodePtr, nat>, i: InodePtr, nlookup: nat)
    requires Inv(t, held, {}) && i in t.inodes
    ensures Inv(t.(inodes := t.inodes[i := t.inodes[i].(nlookup := nlookup)]), held, {})
  {
    hide Inv;
    InvFrame(t, t.(inodes := t.inodes[i := t.inodes[i].(nlookup := nlookup)]), held, {});
  }

  lemma NumberedHashed(t: Table, v: Table, i: InodePtr, ino: nat, replaced: Option<InodePtr>)
    requires Numbered(t, v, i, ino, replaced)
    ensures i in v.inodes && v.inodes[i].hashed && v.inodes[i].ino == ino
  {
    hide Binds, BindsThrough, NumbersTo, NamesThrough;
  }

  lemma UnlinkFound(t: Table, held: map<InodePtr, nat>, x: InodePtr, d: DentryPtr)
    requires Inv(t, held, {}) && x in t.inodes && d in t.inodes[x].dentryList
    ensures d in t.dentries && t.dentries[d].inode == x && t.dentries[d].parent in t.inodes
    ensures t.inodes[t.dentries[d].parent].hashed
  {
    hide NoDup, NumbersOk, NameBucketsOk, ListsOk, Accounts, Tidy;
  }

  lemma NoNameLeft(t: Table, x: InodePtr, par: nat, name: string)
    requires LinksOk(t) && x in t.inodes
    requires forall d :: d in t.inodes[x].dentryList ==>
      d in t.dentries && t.dentries[d].parent in t.inodes
      && (t.inodes[t.dentries[d].parent].ino != par || t.dentries[d].name != name)
    ensures Unnamed(t, t, x, par, name)
  {
    hide NoDup;
  }

  lemma UndisturbedSelf(t: Table)
    ensures Undisturbed(t, t)
  {
  }

  // ---------------------------------------------------------------- renaming

  /** The destination name resolves to `x`, the source name no longer does, every other name as before. */
  ghost predicate RenamedTo(t: Table, u: Table, x: InodePtr, sp: nat, sn: string, dp: nat, dn: string) {
    && (forall q, n, j :: Binds(u, q, n, j) <==>
          if q == dp && n == dn then j == x else Binds(t, q, n, j) && !(q == sp && n == sn && j == x))
    && (forall k, j: InodePtr :: HasNumber(u, k, j) <==> HasNumber(t, k, j))
    && u.inodes.Keys == t.inodes.Keys && u.root == t.root && u.lruLimit == t.lruLimit
    && u.lru == t.lru && (forall i :: i in u.purge <==> i in t.purge)
    && (forall i :: i in t.inodes ==>
          SameFields(t.inodes[i], u.inodes[i]) && (i != x ==> u.inodes[i].mode == t.inodes[i].mode))
  }

  /** Number, lookups, generation and hashing are unchanged, and being in use is. */
  predicate SameFields(a: Inode, b: Inode) {
    && b.ino == a.ino && b.nlookup == a.nlookup && b.generation == a.generation && b.hashed == a.hashed
    && (a.ref > 0 <==> b.ref > 0)
  }

  /** Nothing but what `dn` in directory number `dp` resolves to may have changed. */
  ghost predicate Cleared(t: Table, a: Table, dp: nat, dn: string) {
    && Undisturbed(t, a)
    && (forall q, n, j :: !(q == dp && n == dn) ==> (Binds(a, q, n, j) <==> Binds(t, q, n, j)))
  }

  lemma ClearedOne(t: Table, a: Table, dp: nat, dn: string, y: InodePtr)
    requires Undisturbed(t, a) && Unnamed(t, a, y, dp, dn)
    ensures Cleared(t, a, dp, dn)
  {
    hide Binds, Undisturbed;
  }

  lemma ClearedNone(t: Table, dp: nat, dn: string)
    ensures Cleared(t, t, dp, dn)
  {
    hide Binds;
  }

  lemma ClearedFacts(t: Table, a: Table, dp: nat, dn: string, x: InodePtr, srcdir: InodePtr, dstdir: InodePtr)
    requires Cleared(t, a, dp, dn) && x in t.inodes && srcdir in t.inodes && dstdir in t.inodes
    ensures x in a.inodes && a.inodes[x].hashed == t.inodes[x].hashed && a.inodes[x].ino == t.inodes[x].ino
    ensures srcdir in a.inodes && a.inodes[srcdir].hashed == t.inodes[srcdir].hashed
    ensures a.inodes[srcdir].ino == t.inodes[srcdir].ino
    ensures dstdir in a.inodes && a.inodes[dstdir].hashed == t.inodes[dstdir].hashed
    ensures a.inodes[dstdir].ino == t.inodes[dstdir].ino
  {
    hide Binds;
  }

  lemma UndisturbedFacts(a: Table, b: Table, x: InodePtr, dstdir: InodePtr)
    requires Undisturbed(a, b) && x in a.inodes && dstdir in a.inodes
    ensures x in b.inodes && b.inodes[x].hashed == a.inodes[x].hashed && b.inodes[x].ino == a.inodes[x].ino
    ensures dstdir in b.inodes && b.inodes[dstdir].hashed == a.inodes[dstdir].hashed
    ensures b.inodes[dstdir].ino == a.inodes[dstdir].ino
  {
  }

  lemma OnlyDirectory(t: Table, held: map<InodePtr, nat>, d: DentryPtr, p: InodePtr, name: string)
    requires Inv(t, held, {}) && p in t.inodes && t.inodes[p].hashed && Names(t, d, t.inodes[p].ino, name)
    ensures t.dentries[d].parent == p && t.dentries[d].inode in t.inodes && |t.nameHash| == HASHSIZE
  {
    hide NoDup, ListsOk, Accounts, Tidy;
    assert SameNumber(t.inodes[t.dentries[d].parent], t.inodes[p]);
  }

  lemma OnlySource(a: Table, held: map<InodePtr, nat>, p: InodePtr)
    requires NumbersOk(a) && p in a.inodes && a.inodes[p].hashed && p in held && held[p] > 0
    ensures forall r :: r in a.inodes && a.inodes[r].hashed && a.inodes[r].ino == a.inodes[p].ino ==>
      r in held && held[r] > 0
  {
    hide NumbersOk;
    forall r | r in a.inodes && a.inodes[r].hashed && a.inodes[r].ino == a.inodes[p].ino ensures r == p {
      NumberUnique(a, a.inodes[p].ino, r, p);
    }
  }

  lemma RenameWhole(
    t: Table, a: Table, b: Table, c: Table, held: map<InodePtr, nat>, x: InodePtr, ino: nat, sp: nat, sn: string,
    dp: nat, dn: string, replaced: Option<InodePtr>)
    requires Cleared(t, a, dp, dn) && Undisturbed(a, b) && Unnamed(a, b, x, sp, sn) && NumbersOk(b)
    requires x in b.inodes && b.inodes[x].hashed && b.inodes[x].ino == ino
    requires Linked(b, c, x, ino, Some(dp), dn, replaced) && PurgedBy(b, c, held, ino, replaced)
    ensures RenamedTo(t, c, x, sp, sn, dp, dn)
  {
    hide Binds, NumbersOk;
    if replaced.Some? {
      NumberUnique(b, ino, x, replaced.value);
    } else {
      UndisturbedNames(t, a);
      UndisturbedNames(a, b);
      forall q, n, j
        ensures Binds(c, q, n, j) <==>
          if q == dp && n == dn then j == x else Binds(t, q, n, j) && !(q == sp && n == sn && j == x)
      {
        assert Binds(b, q, n, j) <==> Binds(a, q, n, j) && !(q == sp && n == sn && j == x);
        assert BindsThrough(b, q, n, None, x, j) <==> Binds(b, q, n, j);
      }
      RenameNumbers(t, b, c, x, ino);
    }
  }

  lemma RenameNumbers(t: Table, b: Table, c: Table, x: InodePtr, ino: nat)
    requires NumbersTo(b, c, x, ino) && NumbersOk(b) && HasNumber(b, ino, x)
    requires forall k, j: InodePtr :: HasNumber(b, k, j) <==> HasNumber(t, k, j)
    ensures forall k, j: InodePtr :: HasNumber(c, k, j) <==> HasNumber(t, k, j)
  {
    hide NumbersOk;
    forall k, j: InodePtr ensures HasNumber(c, k, j) <==> HasNumber(t, k, j) {
      if k == ino && HasNumber(b, k, j) {
        NumberUnique(b, ino, j, x);
      }
    }
  }
}
