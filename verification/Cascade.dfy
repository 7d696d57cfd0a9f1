/**
What one release of a reference does to the whole table, however far the release of parents
cascades: the relation `Fades` and its composition.
*/
module Cascade {
  import opened Seqs
  import opened InodeState
  import opened InodeLemmas
  import opened DentryLemmas

  /** The hashed dentries of a list, in list order. */
  function HashedOnly(dentries: map<DentryPtr, Dentry>, s: seq<DentryPtr>): (r: seq<DentryPtr>)
    ensures forall d :: d in r <==> d in s && d in dentries && dentries[d].hashed
  {
    if s == [] then []
    else
      assert s == [s[0]] + s[1..];
      (if s[0] in dentries && dentries[s[0]].hashed then [s[0]] else []) + HashedOnly(dentries, s[1..])
  }

  lemma {:induction false} HashedOnlySnoc(dentries: map<DentryPtr, Dentry>, s: seq<DentryPtr>, d: DentryPtr)
    ensures HashedOnly(dentries, s + [d]) ==
            HashedOnly(dentries, s) + (if d in dentries && dentries[d].hashed then [d] else [])
  {
    if s == [] {
      assert [] + [d] == [d];
    } else {
      HashedOnlySnoc(dentries, s[1..], d);
      assert (s + [d])[1..] == s[1..] + [d];
    }
  }

  lemma {:induction false} HashedOnlyFrame(a: map<DentryPtr, Dentry>, b: map<DentryPtr, Dentry>, s: seq<DentryPtr>)
    requires forall d :: d in s ==> d in a && d in b && a[d] == b[d]
    ensures HashedOnly(a, s) == HashedOnly(b, s)
  {
    if s != [] {
      HashedOnlyFrame(a, b, s[1..]);
    }
  }

  /**
  How one inode may change: an inode without references stays as it is, one that keeps a reference
  keeps its dentries and its hashing, and one that loses its last reference keeps its hashed
  dentries if it is looked up and hashed, and loses hashing and all dentries otherwise.
  */
  predicate InodeFades(a: Inode, b: Inode, hashedDentries: seq<DentryPtr>, drained: bool) {
    && b.ino == a.ino && b.mode == a.mode && b.nlookup == a.nlookup && b.generation == a.generation
    && b.ref <= a.ref && (a.ino == 1 ==> b.ref == a.ref)
    && (a.ref == 0 && !drained ==> b == a)
    && (drained ==> b.ref == a.ref == 0 && b.hashed == a.hashed)
    && (b.ref > 0 ==> b.hashed == a.hashed && b.dentryList == a.dentryList)
    && (a.ref > 0 && b.ref == 0 ==>
          if a.nlookup > 0 && a.hashed then b.hashed && b.dentryList == hashedDentries
          else !b.hashed && b.dentryList == [])
  }

  /** `t` becomes `u` by a cascade; the dentries of inodes in `drained` are being removed besides. */
  ghost predicate Fades(t: Table, u: Table, drained: set<InodePtr>) {
    && t.inodes.Keys == u.inodes.Keys && FewerDentries(t, u)
    && t.lru <= u.lru && t.purge <= u.purge && t.lruLimit == u.lruLimit && t.root == u.root
    && (forall i :: i in t.inodes ==>
          InodeFades(t.inodes[i], u.inodes[i], HashedOnly(t.dentries, t.inodes[i].dentryList), i in drained))
  }

  lemma FadesRefl(t: Table, i: InodePtr)
    requires i in t.inodes ==> t.inodes[i].ref == 0
    ensures Fades(t, t, {}) && Fades(t, t, {i})
  {
  }

  lemma FadesTrans(t: Table, u: Table, v: Table, drained: set<InodePtr>)
    requires LinksOk(t) && LinksOk(u)
    requires Fades(t, u, drained) && (Fades(u, v, drained) || Fades(u, v, {}))
    requires forall i :: i in drained && i in t.inodes ==> t.inodes[i].ref == 0
    ensures Fades(t, v, drained)
  {
    hide LinksOk, HashedOnly, InodeFades;
    forall i | i in t.inodes
      ensures InodeFades(t.inodes[i], v.inodes[i], HashedOnly(t.dentries, t.inodes[i].dentryList), i in drained)
    {
      KeptDentries(t, u, drained, i);
      InodeFadesTrans(t.inodes[i], u.inodes[i], v.inodes[i], HashedOnly(t.dentries, t.inodes[i].dentryList),
        HashedOnly(u.dentries, u.inodes[i].dentryList), i in drained);
    }
  }

  lemma InodeFadesTrans(a: Inode, b: Inode, c: Inode, h: seq<DentryPtr>, g: seq<DentryPtr>, drained: bool)
    requires InodeFades(a, b, h, drained) && (InodeFades(b, c, g, drained) || InodeFades(b, c, g, false))
    requires (drained ==> a.ref == 0) && (b.ref > 0 ==> h == g)
    ensures InodeFades(a, c, h, drained)
  {
  }

  /** An inode still in use has kept its dentries. */
  lemma KeptDentries(t: Table, u: Table, drained: set<InodePtr>, i: InodePtr)
    requires LinksOk(t) && LinksOk(u) && Fades(t, u, drained) && i in t.inodes
    ensures u.inodes[i].ref > 0 ==>
      HashedOnly(t.dentries, t.inodes[i].dentryList) == HashedOnly(u.dentries, u.inodes[i].dentryList)
  {
    hide HashedOnly, NoDup;
    if u.inodes[i].ref > 0 {
      HashedOnlyFrame(t.dentries, u.dentries, t.inodes[i].dentryList);
    }
  }

  /** Unlinking a dentry of a drained inode is part of a cascade. */
  lemma DetachFades(t: Table, d: DentryPtr)
    requires LinksOk(t) && d in t.dentries && |t.nameHash| == HASHSIZE
    requires t.inodes[t.dentries[d].inode].ref == 0
    requires forall i :: i in t.inodes && t.inodes[i].ref == 0 ==> t.inodes[i].childList == []
    ensures Fades(t, Detach(t, d), {t.dentries[d].inode})
    ensures Detach(t, d).inodes[t.dentries[d].inode].dentryList == Remove(t.inodes[t.dentries[d].inode].dentryList, d)
  {
    hide HashedOnly, Remove, Detach, LinksOk;
    LinkedDentry(t, d);
    var u, drained := Detach(t, d), {t.dentries[d].inode};
    DetachShape(t, d);
    DetachAt(t, d, t.dentries[d].inode);
    forall i | i in t.inodes
      ensures InodeFades(t.inodes[i], u.inodes[i], HashedOnly(t.dentries, t.inodes[i].dentryList), i in drained)
    {
      DetachAt(t, d, i);
    }
  }

  lemma UnrefSharedFades(t: Table, i: InodePtr)
    requires i in t.inodes && t.inodes[i].ref > 1 && t.inodes[i].ino != 1
    ensures Fades(t, UnrefDec(t, i), {})
  {
    hide HashedOnly;
  }

  /** Releasing the last reference of `i` moves it (giving `w`) and then drains it (giving `u`). */
  lemma LastUnrefFades(t: Table, i: InodePtr, w: Table, u: Table)
    requires i in t.inodes && t.inodes[i].ref == 1 && t.inodes[i].ino != 1
    requires i in w.inodes && w.inodes == t.inodes[i := t.inodes[i].(ref := 0, hashed := w.inodes[i].hashed)]
    requires w.dentries == t.dentries && t.lru <= w.lru && t.purge <= w.purge
    requires w.lruLimit == t.lruLimit && w.root == t.root
    requires Fades(w, u, {i})
    requires if t.inodes[i].nlookup > 0 && t.inodes[i].hashed
             then w.inodes[i].hashed && u.inodes[i].dentryList == HashedOnly(t.dentries, t.inodes[i].dentryList)
             else !w.inodes[i].hashed && u.inodes[i].dentryList == []
    ensures Fades(t, u, {})
  {
    hide HashedOnly;
    forall j | j in t.inodes
      ensures InodeFades(t.inodes[j], u.inodes[j], HashedOnly(t.dentries, t.inodes[j].dentryList), false)
    {
      assert InodeFades(w.inodes[j], u.inodes[j], HashedOnly(w.dentries, w.inodes[j].dentryList), j in {i});
    }
  }

  lemma FadesSize(t: Table, u: Table, drained: set<InodePtr>)
    requires Fades(t, u, drained)
    ensures |u.dentries| <= |t.dentries|
  {
    SubsetSize(u.dentries.Keys, t.dentries.Keys);
  }

  lemma DetachSize(t: Table, d: DentryPtr)
    requires d in t.dentries && t.dentries[d].parent in t.inodes && t.dentries[d].inode in t.inodes
    requires |t.nameHash| == HASHSIZE
    ensures |Detach(t, d).dentries| < |t.dentries|
  {
    hide HashName, Remove;
    assert Detach(t, d).dentries.Keys == t.dentries.Keys - {d};
  }

  /** An inode that has lost its dentries and children needs no exemption. */
  lemma Unexempt(t: Table, held: map<InodePtr, nat>, ex: set<InodePtr>, i: InodePtr)
    requires Inv(t, held, ex + {i})
    requires i in t.inodes && t.inodes[i].dentryList == [] && t.inodes[i].childList == []
    ensures Inv(t, held, ex)
  {
    UnexemptNames(t, ex, i);
    UnexemptTidy(t, ex, i);
    hide LinksOk, NumbersOk, NamesOk, NameBucketsOk, ListsOk, Accounts, Tidy;
  }

  lemma UnexemptNames(t: Table, ex: set<InodePtr>, i: InodePtr)
    requires LinksOk(t) && NamesOk(t, ex + {i})
    requires i in t.inodes && t.inodes[i].childList == []
    ensures NamesOk(t, ex)
  {
    hide NoDup;
  }

  lemma UnexemptTidy(t: Table, ex: set<InodePtr>, i: InodePtr)
    requires LinksOk(t) && Tidy(t, ex + {i})
    requires i in t.inodes && t.inodes[i].dentryList == []
    ensures Tidy(t, ex)
  {
    hide NoDup;
  }

  // ---------------------------------------------------------------- what a cascade cannot reach

  /** A reason for `k` to stay: number 1, no reference to lose, a holder, or a child that stays. */
  ghost predicate Pinned(t: Table, held: map<InodePtr, nat>, keep: set<InodePtr>, k: InodePtr)
    requires k in t.inodes && k in held
  {
    || t.inodes[k].ref == 0 || t.inodes[k].ino == 1 || held[k] > 0
    || exists d :: d in t.inodes[k].childList && d in t.dentries && t.dentries[d].inode in keep
  }

  ghost predicate Supported(t: Table, held: map<InodePtr, nat>, keep: set<InodePtr>) {
    forall k :: k in keep ==> k in t.inodes && k in held && Pinned(t, held, keep, k)
  }

  /** No inode of `keep` has lost its last reference. */
  ghost predicate Spares(t: Table, u: Table, keep: set<InodePtr>) {
    forall k :: k in keep ==> k in t.inodes && k in u.inodes && (t.inodes[k].ref > 0 <==> u.inodes[k].ref > 0)
  }

  lemma SupportedDetach(t: Table, held: map<InodePtr, nat>, keep: set<InodePtr>, d: DentryPtr)
    requires LinksOk(t) && Supported(t, held, keep) && d in t.dentries && |t.nameHash| == HASHSIZE
    requires t.dentries[d].inode !in keep
    ensures Supported(Detach(t, d), held, keep) && Spares(t, Detach(t, d), keep)
  {
    hide NoDup, Remove, HashName;
    var u := Detach(t, d);
    forall k | k in keep ensures k in u.inodes && k in held && Pinned(u, held, keep, k) {
      if !(t.inodes[k].ref == 0 || t.inodes[k].ino == 1 || held[k] > 0) {
        var e :| e in t.inodes[k].childList && e in t.dentries && t.dentries[e].inode in keep;
        assert e in u.inodes[k].childList;
      }
    }
  }

  /** A step that changes reference counts only, and takes none of `keep` from one to zero. */
  lemma SupportedFrame(t: Table, u: Table, held: map<InodePtr, nat>, keep: set<InodePtr>)
    requires Supported(t, held, keep) && SameLinks(t, u) && SameInos(t, u) && Spares(t, u, keep)
    ensures Supported(u, held, keep)
  {
    forall k | k in keep ensures k in u.inodes && k in held && Pinned(u, held, keep, k) {
      if !(t.inodes[k].ref == 0 || t.inodes[k].ino == 1 || held[k] > 0) {
        var e :| e in t.inodes[k].childList && e in t.dentries && t.dentries[e].inode in keep;
        assert e in u.inodes[k].childList;
      }
    }
  }

  lemma NotLast(t: Table, held: map<InodePtr, nat>, keep: set<InodePtr>, i: InodePtr)
    requires Accounts(t, held) && i in t.inodes && held[i] > 0 && t.inodes[i].ref == 1 && t.inodes[i].ino != 1
    requires Supported(t, held[i := held[i] - 1], keep)
    ensures i !in keep
  {
  }

  lemma LastUnrefSpares(t: Table, held: map<InodePtr, nat>, keep: set<InodePtr>, i: InodePtr)
    requires Supported(t, held, keep) && i !in keep && i in t.inodes && t.inodes[i].ref > 0 && |t.inodeHash| == HASHSIZE
    ensures Supported(MoveToLru(UnrefDec(t, i), i), held, keep) && Spares(t, MoveToLru(UnrefDec(t, i), i), keep)
    ensures Supported(MoveToPurge(UnrefDec(t, i), i), held, keep) && Spares(t, MoveToPurge(UnrefDec(t, i), i), keep)
  {
    hide Pinned;
    UnrefSame(t, i);
    SupportedFrame(t, MoveToLru(UnrefDec(t, i), i), held, keep);
    UnrefPurgeLinks(t, i);
    SupportedFrame(t, MoveToPurge(UnrefDec(t, i), i), held, keep);
  }

  lemma UnrefPurgeLinks(t: Table, i: InodePtr)
    requires i in t.inodes && t.inodes[i].ref > 0 && |t.inodeHash| == HASHSIZE
    ensures SameLinks(t, MoveToPurge(UnrefDec(t, i), i)) && SameInos(t, MoveToPurge(UnrefDec(t, i), i))
  {
    hide Remove;
  }

  lemma SharedUnrefSpares(t: Table, held: map<InodePtr, nat>, keep: set<InodePtr>, i: InodePtr)
    requires Supported(t, held, keep) && i in t.inodes && t.inodes[i].ref > 1
    ensures Supported(UnrefDec(t, i), held, keep) && Spares(t, UnrefDec(t, i), keep)
  {
    hide Pinned;
    UnrefSame(t, i);
    SupportedFrame(t, UnrefDec(t, i), held, keep);
  }

  lemma SparesSelf(t: Table, held: map<InodePtr, nat>, keep: set<InodePtr>)
    requires Supported(t, held, keep)
    ensures Spares(t, t, keep)
  {
    hide Pinned;
  }

  lemma SparesTrans(t: Table, u: Table, v: Table, keep: set<InodePtr>)
    requires Spares(t, u, keep) && Spares(u, v, keep)
    ensures Spares(t, v, keep)
  {
  }

  // ---------------------------------------------------------------- facts the methods draw on

  lemma FadesSelf(t: Table)
    ensures Fades(t, t, {})
  {
    hide HashedOnly;
  }

  lemma InvSizes(t: Table, held: map<InodePtr, nat>, ex: set<InodePtr>)
    requires Inv(t, held, ex)
    ensures |t.inodeHash| == HASHSIZE && |t.nameHash| == HASHSIZE && held.Keys == t.inodes.Keys
    ensures LinksOk(t) && ListsOk(t) && Accounts(t, held)
  {
    hide LinksOk, NamesOk, Tidy, ListsOk, NoDup;
  }

  /** Releasing a reference on number 1 changes only the account. */
  lemma UnrefRoot(t: Table, held: map<InodePtr, nat>, i: InodePtr)
    requires Accounts(t, held) && i in t.inodes && held[i] > 0 && t.inodes[i].ino == 1
    ensures Accounts(t, held[i := held[i] - 1])
  {
  }

  lemma NoChildren(t: Table, held: map<InodePtr, nat>, i: InodePtr)
    requires Accounts(t, held) && i in t.inodes && t.inodes[i].ref == 0
    ensures t.inodes[i].childList == []
  {
  }

  lemma LinkedDentry(t: Table, d: DentryPtr)
    requires LinksOk(t) && d in t.dentries
    ensures t.dentries[d].inode in t.inodes && d in t.inodes[t.dentries[d].inode].dentryList
    ensures t.dentries[d].parent in t.inodes && d in t.inodes[t.dentries[d].parent].childList
  {
    hide NoDup;
  }

  /** Removing a dentry whose parent is held elsewhere too takes one reference and stops there. */
  ghost predicate ReleasedOne(t: Table, u: Table, d: DentryPtr)
  {
    && d in t.dentries && t.dentries[d].parent in t.inodes && t.dentries[d].inode in t.inodes
    && |t.nameHash| == HASHSIZE
    && var w := Detach(t, d);
       var p := t.dentries[d].parent;
       && p in w.inodes
       && if t.inodes[p].ino == 1 then u == w else w.inodes[p].ref > 0 && u == UnrefDec(w, p)
  }

  lemma SharedParent(t: Table, held: map<InodePtr, nat>, d: DentryPtr)
    requires Accounts(t, held) && LinksOk(t) && d in t.dentries && |t.nameHash| == HASHSIZE
    ensures var p := t.dentries[d].parent;
      && Detach(t, d).inodes[p].ino == t.inodes[p].ino
      && (held[p] > 0 ==> Detach(t, d).inodes[p].ref > 1)
  {
    hide NoDup, Remove, HashName;
  }

  lemma ListedDentry(t: Table, i: InodePtr, d: DentryPtr)
    requires LinksOk(t) && i in t.inodes && d in t.inodes[i].dentryList
    ensures d in t.dentries && t.dentries[d].inode == i && NoDup(t.inodes[i].dentryList)
  {
    hide NoDup;
  }

  lemma HeldParent(t: Table, held: map<InodePtr, nat>, p: InodePtr)
    requires Accounts(t, held) && p in t.inodes && held[p] > 0
    ensures t.inodes[p].ref > 0
  {
  }

  /** Removing one dentry of an inode that is being emptied continues the cascade. */
  lemma DrainStep(t: Table, w: Table, held: map<InodePtr, nat>, ex: set<InodePtr>, i: InodePtr, d: DentryPtr, u: Table)
    requires i in t.inodes && t.inodes[i].ref == 0 && LinksOk(t)
    requires Inv(w, held, ex) && Fades(t, w, {i})
    requires i in w.inodes && w.inodes[i].ref == 0 && d in w.dentries && w.dentries[d].inode == i
    requires w.dentries[d].parent in w.inodes && |w.nameHash| == HASHSIZE
    requires Fades(Detach(w, d), u, {})
    ensures Fades(t, u, {i})
    ensures i in u.inodes && u.inodes[i].ref == 0
    ensures u.inodes[i].dentryList == Remove(w.inodes[i].dentryList, d)
  {
    InvSizes(w, held, ex);
    ChildlessIdle(w, held);
    DetachFades(w, d);
    DetachLinks(w, d);
    FadesOne(Detach(w, d), u, i);
    FadesTrans(t, w, Detach(w, d), {i});
    FadesTrans(t, Detach(w, d), u, {i});
  }

  /** A cascade from `t` has come to `w`, with the dentries of the idle inode `i` being taken out. */
  ghost predicate Draining(t: Table, w: Table, held: map<InodePtr, nat>, ex: set<InodePtr>, keep: set<InodePtr>,
      i: InodePtr) {
    && i in t.inodes && t.inodes[i].ref == 0 && LinksOk(t) && i !in keep
    && Inv(w, held, ex) && Fades(t, w, {i}) && Supported(w, held, keep) && Spares(t, w, keep)
    && i in w.inodes && w.inodes[i].ref == 0 && |w.dentries| <= |t.dentries|
  }

  lemma DrainStart(t: Table, held: map<InodePtr, nat>, ex: set<InodePtr>, keep: set<InodePtr>, i: InodePtr)
    requires Inv(t, held, ex) && i in t.inodes && t.inodes[i].ref == 0 && i !in keep && Supported(t, held, keep)
    ensures Draining(t, t, held, ex, keep, i)
  {
    hide Inv, LinksOk, Fades, Supported, Spares;
    InvSizes(t, held, ex);
    FadesRefl(t, i);
    SparesSelf(t, held, keep);
  }

  lemma DrainEnd(t: Table, w: Table, held: map<InodePtr, nat>, ex: set<InodePtr>, keep: set<InodePtr>, i: InodePtr)
    requires Draining(t, w, held, ex, keep, i)
    ensures Inv(w, held, ex) && Fades(t, w, {i}) && Supported(w, held, keep) && Spares(t, w, keep)
    ensures w.inodes[i].ref == 0 && |w.dentries| <= |t.dentries|
  {
    hide Inv, LinksOk, Fades, Supported, Spares;
  }

  lemma DrainFacts(t: Table, w: Table, held: map<InodePtr, nat>, ex: set<InodePtr>, keep: set<InodePtr>, i: InodePtr,
      d: DentryPtr)
    requires Draining(t, w, held, ex, keep, i) && d in w.inodes[i].dentryList
    ensures d in w.dentries && w.dentries[d].inode == i && w.dentries[d].parent in w.inodes && LinksOk(w)
    ensures |w.nameHash| == HASHSIZE
  {
    hide Inv, LinksOk, Fades, Supported, Spares;
    InvSizes(w, held, ex);
    ListedDentry(w, i, d);
    LinkedDentry(w, d);
  }

  lemma DrainNext(t: Table, w: Table, held: map<InodePtr, nat>, ex: set<InodePtr>, keep: set<InodePtr>, i: InodePtr,
      d: DentryPtr, u: Table)
    requires Draining(t, w, held, ex, keep, i) && d in w.dentries && w.dentries[d].inode == i
    requires w.dentries[d].parent in w.inodes && |w.nameHash| == HASHSIZE
    requires Fades(Detach(w, d), u, {}) && Inv(u, held, ex) && Supported(u, held, keep) && Spares(w, u, keep)
    ensures Draining(t, u, held, ex, keep, i) && u.inodes[i].dentryList == Remove(w.inodes[i].dentryList, d)
  {
    hide Inv, LinksOk, Fades, Supported, Spares, Detach, Remove;
    DrainStep(t, w, held, ex, i, d, u);
    SparesTrans(t, w, u, keep);
    FadesSize(t, u, {i});
  }

  /** Passivation looks at its dentries in list order and takes out the unhashed ones. */
  lemma PassivateStep(w: Table, i: InodePtr, t: Table, list: seq<DentryPtr>, k: nat)
    requires LinksOk(w) && Fades(t, w, {i}) && i in w.inodes && k < |list|
    requires w.inodes[i].dentryList == HashedOnly(t.dentries, list[..k]) + list[k..]
    ensures list[k] in t.dentries && list[k] in w.dentries && w.dentries[list[k]] == t.dentries[list[k]]
    ensures w.dentries[list[k]].inode == i
    ensures HashedOnly(t.dentries, list[..k + 1]) + list[k + 1..] ==
            if w.dentries[list[k]].hashed then w.inodes[i].dentryList else Remove(w.inodes[i].dentryList, list[k])
  {
    hide NoDup, Remove, HashedOnly, InodeFades;
    var a, d, b := HashedOnly(t.dentries, list[..k]), list[k], list[k + 1..];
    assert list[..k + 1] == list[..k] + [d];
    HashedOnlySnoc(t.dentries, list[..k], d);
    assert w.inodes[i].dentryList == a + [d] + b;
    assert d in w.inodes[i].dentryList;
    NoDupMiddle(a, d, b);
    RemoveMiddle(a, d, b);
  }

  lemma PassivateDone(dentries: map<DentryPtr, Dentry>, list: seq<DentryPtr>)
    ensures HashedOnly(dentries, list[..|list|]) + list[|list|..] == HashedOnly(dentries, list)
  {
    hide HashedOnly;
    assert list[..|list|] == list && list[|list|..] == [];
    assert HashedOnly(dentries, list) + [] == HashedOnly(dentries, list);
  }

  lemma HashedOnlyNil(dentries: map<DentryPtr, Dentry>)
    ensures HashedOnly(dentries, []) == []
  {
  }

  lemma ChildlessIdle(t: Table, held: map<InodePtr, nat>)
    requires Accounts(t, held)
    ensures forall i :: i in t.inodes && t.inodes[i].ref == 0 ==> t.inodes[i].childList == []
  {
  }

  lemma FadesOne(t: Table, u: Table, i: InodePtr)
    requires Fades(t, u, {}) && i in t.inodes && t.inodes[i].ref == 0
    ensures i in u.inodes && u.inodes[i] == t.inodes[i]
  {
    hide HashedOnly;
  }
}
