/** Every single step of the cache keeps the invariant. */
module InodeLemmas {
  import opened Seqs
  import opened InodeState

  // ---------------------------------------------------------------- frames

  ghost predicate SameLinks(t: Table, u: Table) {
    && t.inodes.Keys == u.inodes.Keys && t.dentries.Keys == u.dentries.Keys
    && (forall i :: i in t.inodes ==>
          t.inodes[i].dentryList == u.inodes[i].dentryList && t.inodes[i].childList == u.inodes[i].childList)
    && (forall d :: d in t.dentries ==>
          t.dentries[d].inode == u.dentries[d].inode && t.dentries[d].parent == u.dentries[d].parent)
  }

  ghost predicate SameInos(t: Table, u: Table) {
    && t.inodes.Keys == u.inodes.Keys
    && (forall i :: i in t.inodes ==> t.inodes[i].ino == u.inodes[i].ino)
  }

  ghost predicate SameHashed(t: Table, u: Table) {
    && t.inodes.Keys == u.inodes.Keys
    && (forall i :: i in t.inodes ==> t.inodes[i].hashed == u.inodes[i].hashed)
  }

  ghost predicate SameLists(t: Table, u: Table) {
    && t.inodes.Keys == u.inodes.Keys
    && (forall i :: i in t.inodes ==> t.inodes[i].ref == u.inodes[i].ref)
    && t.active == u.active && t.lru == u.lru && t.purge == u.purge
    && t.activeSize == u.activeSize && t.lruSize == u.lruSize && t.purgeSize == u.purgeSize
  }

  /** `u` has lost some dentries of `t` and changed none. */
  ghost predicate FewerDentries(t: Table, u: Table) {
    forall d :: d in u.dentries ==> d in t.dentries && u.dentries[d] == t.dentries[d]
  }

  lemma LinksFrame(t: Table, u: Table)
    requires LinksOk(t) && SameLinks(t, u)
    ensures LinksOk(u)
  {
  }

  lemma NumbersFrame(t: Table, u: Table)
    requires NumbersOk(t) && SameInos(t, u) && SameHashed(t, u) && t.inodeHash == u.inodeHash
    ensures NumbersOk(u)
  {
    forall i, j | i in u.inodes && j in u.inodes && SameNumber(u.inodes[i], u.inodes[j]) ensures i == j {
      assert SameNumber(t.inodes[i], t.inodes[j]);
    }
  }

  lemma NamesFrame(t: Table, u: Table, ex: set<InodePtr>)
    requires NamesOk(t, ex) && SameHashed(t, u) && FewerDentries(t, u)
    ensures NamesOk(u, ex)
  {
    forall d, e | d in u.dentries && e in u.dentries && Clash(u.dentries[d], u.dentries[e]) ensures d == e {
      assert Clash(t.dentries[d], t.dentries[e]);
    }
  }

  lemma NameBucketsFrame(t: Table, u: Table)
    requires NameBucketsOk(t) && SameInos(t, u) && t.dentries == u.dentries && t.nameHash == u.nameHash
    ensures NameBucketsOk(u)
  {
  }

  lemma GraphFrame(t: Table, u: Table, ex: set<InodePtr>)
    requires Graph(t, ex)
    requires SameLinks(t, u) && SameInos(t, u) && SameHashed(t, u)
    requires t.dentries == u.dentries && t.inodeHash == u.inodeHash && t.nameHash == u.nameHash
    ensures Graph(u, ex)
  {
    LinksFrame(t, u);
    NumbersFrame(t, u);
    NamesFrame(t, u, ex);
    NameBucketsFrame(t, u);
  }

  ghost predicate PurgedBefore(t: Table, u: Table) {
    forall i :: i in u.purge && i in u.inodes ==>
      i in t.purge && i in t.inodes && (t.inodes[i].dentryList == [] ==> u.inodes[i].dentryList == [])
  }

  lemma TidyFrame(t: Table, u: Table, ex: set<InodePtr>)
    requires Tidy(t, ex) && SameHashed(t, u) && FewerDentries(t, u) && PurgedBefore(t, u)
    ensures Tidy(u, ex)
  {
  }

  lemma ListsFrame(t: Table, u: Table)
    requires ListsOk(t) && SameLists(t, u) && SameHashed(t, u)
    ensures ListsOk(u)
  {
  }

  // ---------------------------------------------------------------- references and lists

  /** A step that moves an inode between lists or changes its count leaves the graph alone. */
  ghost predicate SameGraph(t: Table, u: Table) {
    && SameLinks(t, u) && SameInos(t, u) && SameHashed(t, u)
    && t.dentries == u.dentries && t.inodeHash == u.inodeHash && t.nameHash == u.nameHash
  }

  lemma SameGraphKeeps(t: Table, u: Table, ex: set<InodePtr>)
    requires Graph(t, ex) && Tidy(t, ex) && SameGraph(t, u)
    requires t.purge == u.purge
    ensures Graph(u, ex) && Tidy(u, ex)
  {
    hide LinksOk, NumbersOk, NamesOk, NameBucketsOk, Tidy;
    GraphFrame(t, u, ex);
    assert PurgedBefore(t, u);
    TidyFrame(t, u, ex);
  }

  lemma InvFrame(t: Table, u: Table, held: map<InodePtr, nat>, ex: set<InodePtr>)
    requires Inv(t, held, ex) && SameGraph(t, u) && SameLists(t, u) && SameCounts(t, u)
    ensures Inv(u, held, ex)
  {
    hide Graph, ListsOk, Accounts, Tidy, SameCounts, SameLinks, SameInos, SameHashed;
    SameGraphKeeps(t, u, ex);
    ListsFrame(t, u);
    AccountsFrame(t, u, held);
  }

  lemma RefSame(t: Table, i: InodePtr)
    requires i in t.inodes
    ensures SameGraph(t, RefStep(t, i))
  {
  }

  lemma RefLists(t: Table, i: InodePtr)
    requires ListsOk(t) && i in t.inodes && i !in t.purge
    ensures ListsOk(RefStep(t, i))
    ensures RefStep(t, i).purge == t.purge
  {
  }

  lemma RefAccounts(t: Table, held: map<InodePtr, nat>, i: InodePtr)
    requires Accounts(t, held) && i in t.inodes
    ensures Accounts(RefStep(t, i), held[i := held[i] + 1])
  {
  }

  lemma RefKeeps(t: Table, held: map<InodePtr, nat>, ex: set<InodePtr>, i: InodePtr)
    requires Inv(t, held, ex)
    requires i in t.inodes && i !in t.purge
    ensures Inv(RefStep(t, i), held[i := held[i] + 1], ex)
  {
    hide Graph, ListsOk, Accounts, Tidy, RefStep, SameGraph;
    RefLists(t, i);
    RefAccounts(t, held, i);
    RefSame(t, i);
    SameGraphKeeps(t, RefStep(t, i), ex);
  }

  lemma UnrefSame(t: Table, i: InodePtr)
    requires i in t.inodes && t.inodes[i].ref > 0
    ensures SameGraph(t, UnrefDec(t, i)) && SameGraph(t, MoveToLru(UnrefDec(t, i), i))
  {
  }

  ghost predicate SameCounts(t: Table, u: Table) {
    && SameInos(t, u)
    && (forall i :: i in t.inodes ==>
          t.inodes[i].ref == u.inodes[i].ref && |t.inodes[i].childList| == |u.inodes[i].childList|)
  }

  lemma AccountsFrame(t: Table, u: Table, held: map<InodePtr, nat>)
    requires Accounts(t, held) && SameCounts(t, u)
    ensures Accounts(u, held)
  {
  }

  lemma UnrefAccounts(t: Table, held: map<InodePtr, nat>, i: InodePtr)
    requires Accounts(t, held) && i in t.inodes && t.inodes[i].ref > 0 && held[i] > 0
    ensures Accounts(UnrefDec(t, i), held[i := held[i] - 1])
    ensures t.inodes[i].ref == 1 ==> t.inodes[i].childList == [] && held[i] == 1
  {
  }

  lemma MovesSameCounts(t: Table, i: InodePtr)
    requires i in t.inodes && |t.inodeHash| == HASHSIZE
    ensures SameCounts(t, MoveToLru(t, i)) && SameCounts(t, MoveToPurge(t, i))
  {
  }

  lemma UnrefSharedLists(t: Table, i: InodePtr)
    requires ListsOk(t) && i in t.inodes && t.inodes[i].ref > 1
    ensures ListsOk(UnrefDec(t, i)) && UnrefDec(t, i).purge == t.purge
  {
    hide NoDup;
  }

  lemma UnrefShared(t: Table, held: map<InodePtr, nat>, ex: set<InodePtr>, i: InodePtr)
    requires Inv(t, held, ex)
    requires i in t.inodes && t.inodes[i].ref > 1 && i in held && held[i] > 0
    ensures Inv(UnrefDec(t, i), held[i := held[i] - 1], ex)
  {
    hide Graph, ListsOk, Accounts, Tidy, UnrefDec, MoveToLru, SameGraph;
    UnrefSharedLists(t, i);
    UnrefAccounts(t, held, i);
    UnrefSame(t, i);
    SameGraphKeeps(t, UnrefDec(t, i), ex);
  }

  lemma UnrefLruLists(t: Table, i: InodePtr)
    requires ListsOk(t) && i in t.inodes && t.inodes[i].ref == 1 && t.inodes[i].hashed
    ensures ListsOk(MoveToLru(UnrefDec(t, i), i))
    ensures MoveToLru(UnrefDec(t, i), i).purge == t.purge
    ensures MoveToLru(UnrefDec(t, i), i).lru == t.lru + [i]
  {
    hide NoDup;
    NoDupSnoc(t.lru, i);
  }

  lemma UnrefToLru(t: Table, held: map<InodePtr, nat>, ex: set<InodePtr>, i: InodePtr)
    requires Inv(t, held, ex) && |t.inodeHash| == HASHSIZE
    requires i in t.inodes && t.inodes[i].ref == 1 && i in held && held[i] > 0 && t.inodes[i].hashed
    ensures Inv(MoveToLru(UnrefDec(t, i), i), held[i := held[i] - 1], ex)
  {
    hide Graph, ListsOk, Accounts, Tidy, MoveToLru, MoveToPurge, SameGraph, SameCounts;
    UnrefLruLists(t, i);
    UnrefAccounts(t, held, i);
    MovesSameCounts(UnrefDec(t, i), i);
    AccountsFrame(UnrefDec(t, i), MoveToLru(UnrefDec(t, i), i), held[i := held[i] - 1]);
    UnrefSame(t, i);
    SameGraphKeeps(t, MoveToLru(UnrefDec(t, i), i), ex);
  }

  // ---------------------------------------------------------------- hashing of inodes

  lemma InodeUnhashSame(t: Table, i: InodePtr)
    requires i in t.inodes && |t.inodeHash| == HASHSIZE
    ensures SameLinks(t, InodeUnhash(t, i)) && SameInos(t, InodeUnhash(t, i))
  {
  }

  lemma InodeUnhashNumbers(t: Table, i: InodePtr)
    requires NumbersOk(t) && i in t.inodes
    ensures NumbersOk(InodeUnhash(t, i))
  {
    hide NoDup, HashInode, Remove;
    var u := InodeUnhash(t, i);
    forall j, k | j in u.inodes && k in u.inodes && SameNumber(u.inodes[j], u.inodes[k]) ensures j == k {
      assert SameNumber(t.inodes[j], t.inodes[k]);
    }
  }

  lemma InodeUnhashNames(t: Table, ex: set<InodePtr>, i: InodePtr)
    requires NamesOk(t, ex) && i in t.inodes && |t.inodeHash| == HASHSIZE
    ensures NamesOk(InodeUnhash(t, i), ex + {i})
  {
    hide HashInode;
  }

  lemma InodeUnhashGraph(t: Table, ex: set<InodePtr>, i: InodePtr)
    requires Graph(t, ex) && i in t.inodes && |t.inodeHash| == HASHSIZE
    ensures Graph(InodeUnhash(t, i), ex + {i})
  {
    hide LinksOk, NumbersOk, NamesOk, NameBucketsOk, SameLinks, SameInos, HashInode;
    InodeUnhashSame(t, i);
    LinksFrame(t, InodeUnhash(t, i));
    InodeUnhashNumbers(t, i);
    InodeUnhashNames(t, ex, i);
    NameBucketsFrame(t, InodeUnhash(t, i));
  }

  /** No other inode is hashed under the number of `i`. */
  ghost predicate NumberFree(t: Table, i: InodePtr)
    requires i in t.inodes
  {
    t.inodes[i].ino != 0 &&
    forall j :: j in t.inodes && t.inodes[j].hashed && t.inodes[j].ino == t.inodes[i].ino ==> j == i
  }

  lemma InodeHashNumbers(t: Table, i: InodePtr)
    requires NumbersOk(t) && i in t.inodes && NumberFree(t, i)
    ensures NumbersOk(InodeHash(t, i))
  {
    hide HashInode;
    InodeUnhashNumbers(t, i);
    var w := InodeUnhash(t, i);
    var u := InodeHash(t, i);
    var b := HashInode(t.inodes[i].ino);
    assert i !in w.inodeHash[b];
    assert u.inodeHash[b][1..] == w.inodeHash[b];
    forall j, k | j in u.inodes && k in u.inodes && SameNumber(u.inodes[j], u.inodes[k]) ensures j == k {
      if j != i && k != i { assert SameNumber(w.inodes[j], w.inodes[k]); }
    }
  }

  lemma InodeHashNames(t: Table, ex: set<InodePtr>, i: InodePtr)
    requires NamesOk(t, ex) && Tidy(t, ex) && i in t.inodes && |t.inodeHash| == HASHSIZE
    requires (t.inodes[i].ref > 0 || t.inodes[i].hashed) && ListsOk(t)
    ensures NamesOk(InodeHash(t, i), ex - {i}) && Tidy(InodeHash(t, i), ex - {i})
  {
    hide HashInode, NoDup;
  }

  lemma InodeHashGraph(t: Table, held: map<InodePtr, nat>, ex: set<InodePtr>, i: InodePtr)
    requires Graph(t, ex) && Tidy(t, ex) && ListsOk(t)
    requires i in t.inodes && NumberFree(t, i) && (t.inodes[i].ref > 0 || t.inodes[i].hashed)
    requires |t.inodeHash| == HASHSIZE
    ensures Graph(InodeHash(t, i), ex - {i}) && Tidy(InodeHash(t, i), ex - {i})
  {
    hide LinksOk, NumbersOk, NamesOk, NameBucketsOk, Tidy, ListsOk, HashInode;
    var u := InodeHash(t, i);
    InodeHashNumbers(t, i);
    InodeHashNames(t, ex, i);
    assert SameLinks(t, u) && SameInos(t, u);
    LinksFrame(t, u);
    NameBucketsFrame(t, u);
  }

  lemma PurgeSame(t: Table, i: InodePtr)
    ensures var u := Unlisted(t, i);
      SameGraph(t, u.(purge := u.purge + [i], purgeSize := t.purgeSize + 1))
  {
  }

  lemma PurgeGraph(t: Table, ex: set<InodePtr>, i: InodePtr)
    requires Graph(t, ex) && i in t.inodes && |t.inodeHash| == HASHSIZE
    ensures Graph(MoveToPurge(t, i), ex + {i})
  {
    hide LinksOk, NumbersOk, NamesOk, NameBucketsOk, InodeUnhash, SameLinks, SameInos, SameHashed;
    var u := Unlisted(t, i);
    var v := u.(purge := u.purge + [i], purgeSize := t.purgeSize + 1);
    PurgeSame(t, i);
    GraphFrame(t, v, ex);
    InodeUnhashGraph(v, ex, i);
  }

  lemma PurgeTidy(t: Table, ex: set<InodePtr>, i: InodePtr)
    requires Tidy(t, ex) && i in t.inodes && |t.inodeHash| == HASHSIZE
    ensures Tidy(MoveToPurge(t, i), ex + {i})
  {
    hide HashInode;
  }

  lemma UnrefPurgeLists(t: Table, i: InodePtr)
    requires ListsOk(t) && i in t.inodes && t.inodes[i].ref == 1 && |t.inodeHash| == HASHSIZE
    ensures ListsOk(MoveToPurge(UnrefDec(t, i), i))
    ensures MoveToPurge(UnrefDec(t, i), i).purge == t.purge + [i]
    ensures MoveToPurge(UnrefDec(t, i), i).lru == t.lru
  {
    hide NoDup, HashInode, Remove;
    NoDupSnoc(t.purge, i);
  }

  lemma UnrefToPurge(t: Table, held: map<InodePtr, nat>, ex: set<InodePtr>, i: InodePtr)
    requires Inv(t, held, ex) && |t.inodeHash| == HASHSIZE
    requires i in t.inodes && t.inodes[i].ref == 1 && i in held && held[i] > 0
    ensures Inv(MoveToPurge(UnrefDec(t, i), i), held[i := held[i] - 1], ex + {i})
  {
    hide Graph, ListsOk, Accounts, Tidy, MoveToLru, MoveToPurge, SameGraph, SameCounts;
    UnrefPurgeLists(t, i);
    UnrefAccounts(t, held, i);
    MovesSameCounts(UnrefDec(t, i), i);
    AccountsFrame(UnrefDec(t, i), MoveToPurge(UnrefDec(t, i), i), held[i := held[i] - 1]);
    UnrefSame(t, i);
    SameGraphKeeps(t, UnrefDec(t, i), ex);
    PurgeGraph(UnrefDec(t, i), ex, i);
    PurgeTidy(UnrefDec(t, i), ex, i);
  }

  lemma LruPurgeLists(t: Table, i: InodePtr)
    requires ListsOk(t) && i in t.lru && |t.inodeHash| == HASHSIZE
    ensures i in t.inodes && ListsOk(MoveToPurge(t.(lruSize := t.lruSize - 1), i))
    ensures MoveToPurge(t.(lruSize := t.lruSize - 1), i).purge == t.purge + [i]
    ensures MoveToPurge(t.(lruSize := t.lruSize - 1), i).lru == Remove(t.lru, i)
  {
    hide NoDup, HashInode, Remove;
    NoDupSnoc(t.purge, i);
    assert i !in t.active && i !in t.purge;
    var u := MoveToPurge(t.(lruSize := t.lruSize - 1), i);
    assert u.active == t.active && u.purge == t.purge + [i] && u.lru == Remove(t.lru, i);
    assert forall j :: j in t.inodes && j != i ==> u.inodes[j] == t.inodes[j];
  }

  lemma LruToPurge(t: Table, held: map<InodePtr, nat>, ex: set<InodePtr>, i: InodePtr)
    requires Inv(t, held, ex) && |t.inodeHash| == HASHSIZE
    requires i in t.lru
    ensures i in t.inodes && Inv(MoveToPurge(t.(lruSize := t.lruSize - 1), i), held, ex + {i})
  {
    hide Graph, ListsOk, Accounts, Tidy, MoveToPurge, SameGraph, SameCounts;
    var u := t.(lruSize := t.lruSize - 1);
    LruPurgeLists(t, i);
    PlainSame(t);
    AccountsFrame(t, u, held);
    MovesSameCounts(u, i);
    AccountsFrame(u, MoveToPurge(u, i), held);
    SameGraphKeeps(t, u, ex);
    PurgeGraph(u, ex, i);
    PurgeTidy(u, ex, i);
  }

  lemma PlainSame(t: Table)
    ensures SameGraph(t, t.(lruSize := t.lruSize - 1)) && SameCounts(t, t.(lruSize := t.lruSize - 1))
  {
  }
}
