/** Hashing, unhashing, creating and removing a dentry keep the invariant. */
module DentryLemmas {
  import opened Seqs
  import opened InodeState
  import opened InodeLemmas

  // ---------------------------------------------------------------- unhash

  lemma DentryUnhashNames(t: Table, ex: set<InodePtr>, d: DentryPtr)
    requires NamesOk(t, ex) && d in t.dentries && |t.nameHash| == HASHSIZE
    ensures NamesOk(DentryUnhash(t, d), ex)
  {
    hide HashName, Remove;
    var u := DentryUnhash(t, d);
    forall e, f | e in u.dentries && f in u.dentries && Clash(u.dentries[e], u.dentries[f]) ensures e == f {
      assert Clash(t.dentries[e], t.dentries[f]);
    }
  }

  lemma DentryUnhashBuckets(t: Table, d: DentryPtr)
    requires NameBucketsOk(t) && d in t.dentries
    ensures NameBucketsOk(DentryUnhash(t, d))
  {
    hide HashName, Remove, NoDup;
    var u := DentryUnhash(t, d);
    assert forall e :: e in t.dentries ==> NameBucket(u, e) == NameBucket(t, e);
  }

  lemma DentryUnhashTidy(t: Table, ex: set<InodePtr>, d: DentryPtr)
    requires Tidy(t, ex) && d in t.dentries && t.dentries[d].parent in t.inodes && |t.nameHash| == HASHSIZE
    ensures Tidy(DentryUnhash(t, d), ex)
  {
    hide HashName, Remove;
  }

  lemma DentryUnhashSame(t: Table, d: DentryPtr)
    requires d in t.dentries && t.dentries[d].parent in t.inodes && |t.nameHash| == HASHSIZE
    ensures SameLinks(t, DentryUnhash(t, d)) && SameInos(t, DentryUnhash(t, d)) && SameHashed(t, DentryUnhash(t, d))
    ensures SameLists(t, DentryUnhash(t, d)) && SameCounts(t, DentryUnhash(t, d))
  {
    hide HashName, Remove;
  }

  lemma DentryUnhashKeeps(t: Table, held: map<InodePtr, nat>, ex: set<InodePtr>, d: DentryPtr)
    requires Inv(t, held, ex) && |t.nameHash| == HASHSIZE
    requires d in t.dentries && t.dentries[d].parent in t.inodes
    ensures Inv(DentryUnhash(t, d), held, ex)
  {
    hide LinksOk, NumbersOk, NamesOk, NameBucketsOk, ListsOk, Accounts, Tidy;
    hide SameLinks, SameInos, SameHashed, SameLists, SameCounts, Remove, HashName;
    var u := DentryUnhash(t, d);
    DentryUnhashSame(t, d);
    LinksFrame(t, u);
    NumbersFrame(t, u);
    DentryUnhashNames(t, ex, d);
    DentryUnhashBuckets(t, d);
    ListsFrame(t, u);
    AccountsFrame(t, u, held);
    DentryUnhashTidy(t, ex, d);
  }

  // ---------------------------------------------------------------- hash

  /** The name of `d` may be hashed: no other dentry holds it and its inode takes part in hashing. */
  ghost predicate NameFree(t: Table, ex: set<InodePtr>, d: DentryPtr)
    requires d in t.dentries
  {
    && t.dentries[d].inode in t.inodes && (t.inodes[t.dentries[d].inode].hashed || t.dentries[d].inode in ex)
    && (forall e :: e in t.dentries && t.dentries[e].hashed && SameName(t.dentries[e], t.dentries[d]) ==> e == d)
  }

  lemma DentryHashNames(t: Table, ex: set<InodePtr>, d: DentryPtr)
    requires NamesOk(t, ex) && d in t.dentries && |t.nameHash| == HASHSIZE && NameFree(t, ex, d)
    ensures NamesOk(DentryHash(t, d), ex)
  {
    hide HashName, Remove;
    var u := DentryHash(t, d);
    forall e, f | e in u.dentries && f in u.dentries && Clash(u.dentries[e], u.dentries[f]) ensures e == f {
      assert Clash(t.dentries[e], t.dentries[f]) || (t.dentries[e].hashed && f == d)
        || (t.dentries[f].hashed && e == d);
    }
  }

  lemma DentryHashBuckets(t: Table, d: DentryPtr)
    requires NameBucketsOk(t) && d in t.dentries
    ensures NameBucketsOk(DentryHash(t, d))
  {
    hide HashName, Remove, NoDup;
    DentryUnhashBuckets(t, d);
    var w := DentryUnhash(t, d);
    var u := DentryHash(t, d);
    var b := NameBucket(t, d);
    assert forall e :: e in t.dentries ==> NameBucket(u, e) == NameBucket(t, e) == NameBucket(w, e);
    assert d !in w.nameHash[b];
    NoDupCons(d, w.nameHash[b]);
  }

  lemma DentryHashTidy(t: Table, ex: set<InodePtr>, d: DentryPtr)
    requires Tidy(t, ex) && d in t.dentries && t.dentries[d].parent in t.inodes && |t.nameHash| == HASHSIZE
    requires NameFree(t, ex, d)
    ensures Tidy(DentryHash(t, d), ex)
  {
    hide HashName, Remove;
  }

  lemma DentryHashLinks(t: Table, d: DentryPtr)
    requires LinksOk(t) && d in t.dentries && |t.nameHash| == HASHSIZE
    ensures LinksOk(DentryHash(t, d))
  {
    hide HashName, Remove, NoDup;
    var p := t.dentries[d].parent;
    NoDupCons(d, Remove(t.inodes[p].childList, d));
  }

  lemma DentryHashSame(t: Table, d: DentryPtr)
    requires d in t.dentries && t.dentries[d].parent in t.inodes && |t.nameHash| == HASHSIZE
    requires d in t.inodes[t.dentries[d].parent].childList
    ensures SameInos(t, DentryHash(t, d)) && SameHashed(t, DentryHash(t, d))
    ensures SameLists(t, DentryHash(t, d)) && SameCounts(t, DentryHash(t, d))
  {
    hide HashName, Remove;
  }

  lemma DentryHashKeeps(t: Table, held: map<InodePtr, nat>, ex: set<InodePtr>, d: DentryPtr)
    requires Inv(t, held, ex) && |t.nameHash| == HASHSIZE
    requires d in t.dentries && t.dentries[d].parent in t.inodes
    requires d in t.inodes[t.dentries[d].parent].childList
    requires NameFree(t, ex, d)
    ensures Inv(DentryHash(t, d), held, ex)
  {
    hide LinksOk, NumbersOk, NamesOk, NameBucketsOk, ListsOk, Accounts, Tidy;
    hide SameInos, SameHashed, SameLists, SameCounts, Remove, HashName, NameFree;
    var u := DentryHash(t, d);
    DentryHashSame(t, d);
    DentryHashLinks(t, d);
    NumbersFrame(t, u);
    DentryHashNames(t, ex, d);
    DentryHashBuckets(t, d);
    ListsFrame(t, u);
    AccountsFrame(t, u, held);
    DentryHashTidy(t, ex, d);
  }

  // ---------------------------------------------------------------- detach

  lemma DetachShape(t: Table, d: DentryPtr)
    requires d in t.dentries && t.dentries[d].parent in t.inodes && t.dentries[d].inode in t.inodes
    requires |t.nameHash| == HASHSIZE
    ensures var u := Detach(t, d);
      && u == t.(inodes := u.inodes, dentries := t.dentries - {d}, nameHash := u.nameHash)
      && u.inodes.Keys == t.inodes.Keys
  {
    hide HashName, Remove;
  }

  /** What detaching a dentry does to one inode. */
  lemma DetachAt(t: Table, d: DentryPtr, j: InodePtr)
    requires d in t.dentries && t.dentries[d].parent in t.inodes && t.dentries[d].inode in t.inodes
    requires |t.nameHash| == HASHSIZE && j in t.inodes
    ensures j in Detach(t, d).inodes && Detach(t, d).inodes[j] == t.inodes[j].(
      dentryList := if j == t.dentries[d].inode then Remove(t.inodes[j].dentryList, d) else t.inodes[j].dentryList,
      childList := if j == t.dentries[d].parent then Remove(t.inodes[j].childList, d) else t.inodes[j].childList)
  {
    hide HashName, Remove;
  }

  lemma DetachSame(t: Table, d: DentryPtr)
    requires d in t.dentries && t.dentries[d].parent in t.inodes && t.dentries[d].inode in t.inodes
    requires |t.nameHash| == HASHSIZE
    ensures SameInos(t, Detach(t, d)) && SameHashed(t, Detach(t, d)) && SameLists(t, Detach(t, d))
    ensures FewerDentries(t, Detach(t, d)) && PurgedBefore(t, Detach(t, d))
  {
    hide Detach, Remove;
    DetachShape(t, d);
    forall j | j in t.inodes
      ensures j in Detach(t, d).inodes && Detach(t, d).inodes[j]
        == t.inodes[j].(dentryList := Detach(t, d).inodes[j].dentryList, childList := Detach(t, d).inodes[j].childList)
      ensures t.inodes[j].dentryList == [] ==> Detach(t, d).inodes[j].dentryList == []
    {
      DetachAt(t, d, j);
    }
  }

  lemma DetachLinks(t: Table, d: DentryPtr)
    requires LinksOk(t) && d in t.dentries && |t.nameHash| == HASHSIZE
    ensures LinksOk(Detach(t, d))
  {
    hide HashName, Remove, NoDup;
  }

  lemma DetachBuckets(t: Table, d: DentryPtr)
    requires NameBucketsOk(t) && d in t.dentries && t.dentries[d].inode in t.inodes
    ensures NameBucketsOk(Detach(t, d))
  {
    hide HashName, Remove, NoDup;
    DentryUnhashBuckets(t, d);
    var w := DentryUnhash(t, d);
    var u := Detach(t, d);
    assert forall e :: e in u.dentries ==> NameBucket(u, e) == NameBucket(w, e);
  }

  lemma DetachAccounts(t: Table, held: map<InodePtr, nat>, d: DentryPtr)
    requires Accounts(t, held) && LinksOk(t) && d in t.dentries && |t.nameHash| == HASHSIZE
    ensures var p := t.dentries[d].parent; Accounts(Detach(t, d), held[p := held[p] + 1])
  {
    hide HashName, Remove, NoDup;
  }

  lemma DetachKeeps(t: Table, held: map<InodePtr, nat>, ex: set<InodePtr>, d: DentryPtr)
    requires Inv(t, held, ex) && |t.nameHash| == HASHSIZE
    requires d in t.dentries && t.dentries[d].parent in t.inodes && t.dentries[d].inode in t.inodes
    requires t.dentries[d].parent in held
    ensures var p := t.dentries[d].parent; Inv(Detach(t, d), held[p := held[p] + 1], ex)
  {
    hide LinksOk, NumbersOk, NamesOk, NameBucketsOk, ListsOk, Accounts, Tidy;
    hide SameInos, SameHashed, SameLists, FewerDentries, PurgedBefore, Remove, HashName;
    var u := Detach(t, d);
    DetachSame(t, d);
    DetachLinks(t, d);
    NumbersFrame(t, u);
    NamesFrame(t, u, ex);
    DetachBuckets(t, d);
    ListsFrame(t, u);
    DetachAccounts(t, held, d);
    TidyFrame(t, u, ex);
  }

  // ---------------------------------------------------------------- attach

  lemma AttachLinks(t: Table, d: DentryPtr, i: InodePtr, p: InodePtr, name: string)
    requires LinksOk(t) && i in t.inodes && p in t.inodes && d !in t.dentries
    ensures LinksOk(Attach(t, d, i, p, name))
  {
    hide Remove, NoDup;
    NoDupCons(d, t.inodes[i].dentryList);
    NoDupCons(d, t.inodes[p].childList);
  }

  /** No dentry of `i` has this parent and name yet. */
  ghost predicate NoDentry(t: Table, i: InodePtr, p: InodePtr, name: string) {
    forall e :: e in t.dentries && t.dentries[e].inode == i ==> t.dentries[e].parent != p || t.dentries[e].name != name
  }

  lemma AttachNames(t: Table, ex: set<InodePtr>, d: DentryPtr, i: InodePtr, p: InodePtr, name: string)
    requires NamesOk(t, ex) && i in t.inodes && p in t.inodes && d !in t.dentries
    requires t.inodes[p].hashed || p in ex
    requires NoDentry(t, i, p, name)
    ensures NamesOk(Attach(t, d, i, p, name), ex)
  {
    var u := Attach(t, d, i, p, name);
    forall e, f | e in u.dentries && f in u.dentries && Clash(u.dentries[e], u.dentries[f]) ensures e == f {
      if e != d && f != d { assert Clash(t.dentries[e], t.dentries[f]); }
    }
  }

  lemma AttachBuckets(t: Table, d: DentryPtr, i: InodePtr, p: InodePtr, name: string)
    requires NameBucketsOk(t) && i in t.inodes && p in t.inodes && d !in t.dentries
    ensures NameBucketsOk(Attach(t, d, i, p, name))
  {
    hide HashName, NoDup;
    var u := Attach(t, d, i, p, name);
    assert forall e :: e in t.dentries ==> NameBucket(u, e) == NameBucket(t, e);
  }

  lemma AttachTidy(t: Table, ex: set<InodePtr>, d: DentryPtr, i: InodePtr, p: InodePtr, name: string)
    requires Tidy(t, ex) && i in t.inodes && p in t.inodes && d !in t.dentries && i !in t.purge
    ensures Tidy(Attach(t, d, i, p, name), ex)
  {
  }

  lemma AttachAccounts(t: Table, held: map<InodePtr, nat>, d: DentryPtr, i: InodePtr, p: InodePtr, name: string)
    requires Accounts(t, held) && i in t.inodes && p in t.inodes && held[p] > 0
    ensures Accounts(Attach(t, d, i, p, name), held[p := held[p] - 1])
  {
  }

  lemma AttachSame(t: Table, d: DentryPtr, i: InodePtr, p: InodePtr, name: string)
    requires i in t.inodes && p in t.inodes
    ensures var u := Attach(t, d, i, p, name); SameInos(t, u) && SameHashed(t, u) && SameLists(t, u)
  {
  }

  lemma AttachKeeps(t: Table, held: map<InodePtr, nat>, ex: set<InodePtr>, d: DentryPtr, i: InodePtr, p: InodePtr,
      name: string)
    requires Inv(t, held, ex)
    requires i in t.inodes && p in t.inodes && d !in t.dentries && i !in t.purge && p in held && held[p] > 0
    requires t.inodes[p].hashed || p in ex
    requires NoDentry(t, i, p, name)
    ensures Inv(Attach(t, d, i, p, name), held[p := held[p] - 1], ex)
  {
    hide LinksOk, NumbersOk, NamesOk, NameBucketsOk, ListsOk, Accounts, Tidy, NoDentry;
    hide SameInos, SameHashed, SameLists;
    var u := Attach(t, d, i, p, name);
    AttachSame(t, d, i, p, name);
    AttachLinks(t, d, i, p, name);
    NumbersFrame(t, u);
    AttachNames(t, ex, d, i, p, name);
    AttachBuckets(t, d, i, p, name);
    ListsFrame(t, u);
    AttachAccounts(t, held, d, i, p, name);
    AttachTidy(t, ex, d, i, p, name);
  }
}
