/**
What the two hash tables mean to a caller: a number resolves to at most one inode, a name in a
directory to at most one inode, and eviction only takes away names together with their inode.
*/
module Resolution {
  import opened Seqs
  import opened InodeState
  import opened InodeLemmas
  import opened DentryLemmas
  import opened Cascade

  /** Number `ino` resolves to inode `i`. */
  predicate HasNumber(t: Table, ino: nat, i: InodePtr) {
    i in t.inodes && t.inodes[i].hashed && t.inodes[i].ino == ino
  }

  /** Dentry `d` is hashed under `name` in directory number `par`. */
  predicate Names(t: Table, d: DentryPtr, par: nat, name: string) {
    && d in t.dentries && t.dentries[d].hashed && t.dentries[d].name == name
    && t.dentries[d].parent in t.inodes && t.inodes[t.dentries[d].parent].ino == par
  }

  /** `name` in directory number `par` resolves to inode `i`. */
  ghost predicate Binds(t: Table, par: nat, name: string, i: InodePtr) {
    exists d :: Names(t, d, par, name) && t.dentries[d].inode == i
  }

  lemma NumberUnique(t: Table, ino: nat, i: InodePtr, j: InodePtr)
    requires NumbersOk(t) && HasNumber(t, ino, i) && HasNumber(t, ino, j)
    ensures i == j
  {
    hide NoDup, HashInode;
    assert SameNumber(t.inodes[i], t.inodes[j]);
  }

  lemma NameUnique(t: Table, par: nat, name: string, d: DentryPtr, e: DentryPtr)
    requires NumbersOk(t) && NamesOk(t, {}) && Names(t, d, par, name) && Names(t, e, par, name)
    ensures d == e
  {
    hide NumbersOk;
    NumberUnique(t, par, t.dentries[d].parent, t.dentries[e].parent);
    assert Clash(t.dentries[d], t.dentries[e]);
  }

  /** A name resolves to at most one inode, and that inode is hashed. */
  lemma BindsUnique(t: Table, held: map<InodePtr, nat>, par: nat, name: string, i: InodePtr, j: InodePtr)
    requires Inv(t, held, {}) && Binds(t, par, name, i) && Binds(t, par, name, j)
    ensures i == j && i in t.inodes && t.inodes[i].hashed
  {
    hide NumbersOk, NamesOk, NameBucketsOk, LinksOk, ListsOk, Accounts;
    var d :| Names(t, d, par, name) && t.dentries[d].inode == i;
    var e :| Names(t, e, par, name) && t.dentries[e].inode == j;
    NameUnique(t, par, name, d, e);
  }

  // ---------------------------------------------------------------- eviction

  /** Inode `i` is in `u` what it was in `t`, but for references and unhashed dentries it lost. */
  ghost predicate Stays(t: Table, u: Table, i: InodePtr)
    requires i in t.inodes && i in u.inodes
  {
    var a, b := t.inodes[i], u.inodes[i];
    && b.ino == a.ino && b.mode == a.mode && b.nlookup == a.nlookup && b.generation == a.generation
    && b.hashed == a.hashed && b.ref <= a.ref
    && (b.ref > 0 ==> b.dentryList == a.dentryList)
    && (forall d :: d in a.dentryList && d in t.dentries && t.dentries[d].hashed ==> d in b.dentryList)
  }

  /** Every inode of `t` is purged in `u` or stays. */
  ghost predicate Evicts(t: Table, u: Table) {
    && t.inodes.Keys == u.inodes.Keys && FewerDentries(t, u)
    && t.lruLimit == u.lruLimit && t.root == u.root
    && (forall i :: i in t.purge ==> i in u.purge)
    && (forall i :: i in t.inodes ==> i in u.purge || Stays(t, u, i))
    && (forall i :: i in t.inodes && t.inodes[i].ino == 1 ==>
          u.inodes[i].ino == 1 && u.inodes[i].ref == t.inodes[i].ref)
  }

  lemma EvictsTrans(t: Table, u: Table, v: Table)
    requires Evicts(t, u) && Evicts(u, v) && LinksOk(u)
    ensures Evicts(t, v)
  {
    hide NoDup;
    forall i | i in t.inodes && i !in v.purge ensures Stays(t, v, i) {
      assert Stays(t, u, i) && Stays(u, v, i);
    }
  }

  lemma FadesEvicts(t: Table, u: Table)
    requires Fades(t, u, {}) && ListsOk(u)
    ensures Evicts(t, u)
  {
    hide NoDup;
    forall i | i in t.inodes && i !in u.purge ensures Stays(t, u, i) {
      assert InodeFades(t.inodes[i], u.inodes[i], HashedOnly(t.dentries, t.inodes[i].dentryList), false);
    }
  }

  /** One turn of the prune loop: the oldest idle inode `e` is retired, and what hangs on it with it. */
  lemma EvictOne(t: Table, w: Table, u: Table, e: InodePtr)
    requires ListsOk(t) && e in t.lru
    requires e in w.inodes && w.inodes == t.inodes[e := t.inodes[e].(hashed := false)]
    requires w.dentries == t.dentries && w.lruLimit == t.lruLimit && w.root == t.root && w.purge == t.purge + [e]
    requires Fades(w, u, {e}) && ListsOk(u)
    ensures Evicts(t, u) && e in u.purge
  {
    hide NoDup;
    assert e in w.purge;
    forall i | i in t.inodes && i !in u.purge ensures Stays(t, u, i) {
      assert InodeFades(w.inodes[i], u.inodes[i], HashedOnly(w.dentries, w.inodes[i].dentryList), i in {e});
    }
  }

  // ---------------------------------------------------------------- which inodes go idle, and which go

  /** A referenced inode that stays on the lru list when it loses its last reference. */
  predicate Looked(t: Table, i: InodePtr) {
    i in t.inodes && t.inodes[i].ref > 0 && t.inodes[i].ino != 1 && t.inodes[i].nlookup > 0 && t.inodes[i].hashed
  }

  /** A referenced inode that is purged when it loses its last reference. */
  predicate Loose(t: Table, i: InodePtr) {
    i in t.inodes && t.inodes[i].ref > 0 && t.inodes[i].ino != 1 && !(t.inodes[i].nlookup > 0 && t.inodes[i].hashed)
  }

  /** A cascade from `t` to `u`: what goes idle was in use, and joins the end of the lru or the purge list. */
  ghost predicate Shed(t: Table, u: Table) {
    && t.inodes.Keys == u.inodes.Keys && t.lru <= u.lru && t.purge <= u.purge
    && (forall i :: i in u.lru[|t.lru|..] ==> Looked(t, i))
    && (forall i :: i in u.purge[|t.purge|..] ==> Loose(t, i))
  }

  lemma FadesShed(t: Table, u: Table)
    requires Fades(t, u, {}) && ListsOk(t) && ListsOk(u)
    ensures Shed(t, u)
  {
    hide NoDup, HashedOnly;
    forall i | i in u.lru[|t.lru|..] ensures Looked(t, i) {
      TailNew(t.lru, u.lru, i);
      assert InodeFades(t.inodes[i], u.inodes[i], HashedOnly(t.dentries, t.inodes[i].dentryList), false);
    }
    forall i | i in u.purge[|t.purge|..] ensures Loose(t, i) {
      TailNew(t.purge, u.purge, i);
      assert InodeFades(t.inodes[i], u.inodes[i], HashedOnly(t.dentries, t.inodes[i].dentryList), false);
    }
  }

  lemma TailNew(a: seq<InodePtr>, b: seq<InodePtr>, i: InodePtr)
    requires a <= b && NoDup(b) && i in b[|a|..]
    ensures i in b && i !in a
  {
    assert b == a + b[|a|..];
    if i in a {
      var j :| 0 <= j < |a| && a[j] == i;
      var k :| 0 <= k < |b[|a|..]| && b[|a|..][k] == i;
      NoDupAt(b, j, |a| + k);
    }
  }

  /** One turn of the prune loop: besides the oldest, only inodes that were in use go idle. */
  lemma EvictShed(t: Table, w: Table, u: Table, e: InodePtr)
    requires ListsOk(t) && t.lru != [] && e == t.lru[0] && e in w.inodes
    requires w.inodes == t.inodes[e := t.inodes[e].(hashed := false)]
    requires w.lru == t.lru[1..] && w.purge == t.purge + [e] && Fades(w, u, {e}) && ListsOk(u)
    ensures t.lru[1..] <= u.lru && forall i :: i in u.lru[|t.lru| - 1..] ==> Looked(t, i)
    ensures forall i :: i in u.purge ==> i in t.purge || i == e || Loose(t, i)
  {
    hide NoDup, HashedOnly;
    assert e in w.purge;
    forall i | i in u.lru[|t.lru| - 1..] ensures Looked(t, i) {
      TailNew(w.lru, u.lru, i);
      assert t.lru == [e] + w.lru;
      assert InodeFades(w.inodes[i], u.inodes[i], HashedOnly(w.dentries, w.inodes[i].dentryList), i in {e});
    }
    forall i | i in u.purge && i !in t.purge && i != e ensures Loose(t, i) {
      assert InodeFades(w.inodes[i], u.inodes[i], HashedOnly(w.dentries, w.inodes[i].dentryList), i in {e});
    }
  }

  /**
  Pruning from `t` to `u`; `queue` is the lru list with everything that joins it at the end meanwhile. Within the
  limit only the purged inodes go. Otherwise the front of the queue goes too, as much of it as is over the limit,
  and with it inodes that nothing but the evicted ones referred to.
  */
  ghost predicate Pruned(t: Table, u: Table, queue: seq<InodePtr>) {
    && t.lru <= queue && |u.lru| <= |queue| && u.purge == []
    && var n := |queue| - |u.lru|;
       && u.lru == queue[n..]
       && (if t.lruLimit == 0 || |t.lru| <= t.lruLimit then queue == t.lru && u == Destroy(t)
           else n > 0 && |u.lru| == t.lruLimit)
       && (forall i :: i in queue[|t.lru|..] ==> Looked(t, i))
       && (forall i :: i in t.purge || i in queue[..n] ==> i !in u.inodes)
       && (forall i :: i in t.inodes && i !in u.inodes ==> i in t.purge || i in queue[..n] || Loose(t, i))
  }

  /** The prune loop has come from `t` to `w`, with the first `n` of the queue retired. */
  ghost predicate Pruning(t: Table, w: Table, queue: seq<InodePtr>, n: nat) {
    && t.lru <= queue && n <= |queue| && w.lru == queue[n..] && Evicts(t, w)
    && (if n == 0 then w == t && queue == t.lru
        else t.lruLimit != 0 && |t.lru| > t.lruLimit && |w.lru| >= t.lruLimit)
    && (forall i :: i in queue[|t.lru|..] ==> Looked(t, i))
    && (forall i :: i in queue[..n] ==> i in w.purge)
    && (forall i :: i in w.purge ==> i in t.purge || i in queue[..n] || Loose(t, i))
  }

  lemma PruneStart(t: Table)
    ensures Pruning(t, t, t.lru, 0)
  {
    hide Evicts, Looked, Loose;
    EvictsSelf(t);
  }

  lemma PruneStep(t: Table, w: Table, u: Table, queue: seq<InodePtr>, n: nat)
    requires Pruning(t, w, queue, n) && ListsOk(w) && LinksOk(w) && Evicts(w, u) && w.lru != [] && w.lru[0] in u.purge
    requires w.lruLimit != 0 && |w.lru| > w.lruLimit
    requires w.lru[1..] <= u.lru && forall i :: i in u.lru[|w.lru| - 1..] ==> Looked(w, i)
    requires forall i :: i in u.purge ==> i in w.purge || i == w.lru[0] || Loose(w, i)
    ensures Pruning(t, u, queue + u.lru[|w.lru| - 1..], n + 1)
  {
    hide NoDup, LinksOk, Evicts, Looked, Loose;
    var q := queue + u.lru[|w.lru| - 1..];
    QueueStep(queue, n, w.lru, u.lru, w.lru[0]);
    EvictsTrans(t, w, u);
    EvictsKeys(t, w);
    EvictsKeys(w, u);
    forall i | i in q[|t.lru|..] ensures Looked(t, i) {
      assert q[|t.lru|..] == queue[|t.lru|..] + u.lru[|w.lru| - 1..];
      if i !in queue[|t.lru|..] { UsedBefore(t, w, i); }
    }
    forall i | i in u.purge ensures i in t.purge || i in q[..n + 1] || Loose(t, i) {
      if Loose(w, i) { UsedBefore(t, w, i); }
    }
  }

  /** What is in use after evictions was so before, and as well looked up. */
  lemma UsedBefore(t: Table, w: Table, i: InodePtr)
    requires Evicts(t, w) && ListsOk(w)
    ensures Looked(w, i) ==> Looked(t, i)
    ensures Loose(w, i) ==> Loose(t, i)
  {
    hide NoDup;
    if i in w.inodes && w.inodes[i].ref > 0 {
      assert Stays(t, w, i);
    }
  }

  lemma PruningFacts(t: Table, w: Table, queue: seq<InodePtr>, n: nat)
    requires Pruning(t, w, queue, n)
    ensures Evicts(t, w) && n <= |queue| && w.lru == queue[n..] && w.lruLimit == t.lruLimit
    ensures w.inodes.Keys == t.inodes.Keys && (forall i :: i in t.purge ==> i in w.purge)
    ensures t.lruLimit == 0 || |t.lru| <= t.lruLimit ==> w == t
  {
    hide Evicts, Looked, Loose;
    EvictsKeys(t, w);
  }

  lemma PruneEnd(t: Table, w: Table, queue: seq<InodePtr>, n: nat)
    requires Pruning(t, w, queue, n) && (w.lruLimit == 0 || |w.lru| <= w.lruLimit)
    ensures Pruned(t, Destroy(w), queue)
  {
    hide NoDup, Evicts, Looked, Loose;
    EvictsKeys(t, w);
  }

  // ---------------------------------------------------------------- destruction

  /** The purged inodes are freed. */
  function Destroy(t: Table): Table {
    t.(inodes := map i | i in t.inodes && i !in t.purge :: t.inodes[i], purge := [], purgeSize := 0)
  }

  /**
  The net effect of a public operation's evictions: some idle inodes are gone, all others stay, and
  number 1 stays for good once it has been referenced.
  */
  ghost predicate Settles(t: Table, u: Table) {
    && u.inodes.Keys <= t.inodes.Keys && FewerDentries(t, u)
    && t.lruLimit == u.lruLimit && t.root == u.root
    && (forall i :: i in u.inodes ==> Stays(t, u, i))
    && (forall i :: i in t.inodes && t.inodes[i].ino == 1 && t.inodes[i].ref > 0 ==>
          i in u.inodes && u.inodes[i].ref == t.inodes[i].ref)
  }

  lemma DestroySettles(t: Table, u: Table)
    requires Evicts(t, u) && ListsOk(u)
    ensures Settles(t, Destroy(u))
  {
    hide NoDup;
    var v := Destroy(u);
    forall i | i in v.inodes ensures Stays(t, v, i) {
      assert Stays(t, u, i);
    }
  }

  ghost function Survivors(t: Table, held: map<InodePtr, nat>): map<InodePtr, nat> {
    map i | i in held && i !in t.purge :: held[i]
  }

  lemma DestroyLinks(t: Table, held: map<InodePtr, nat>, ex: set<InodePtr>)
    requires LinksOk(t) && Tidy(t, ex) && ListsOk(t) && Accounts(t, held) && forall e :: e in ex ==> e !in t.purge
    ensures LinksOk(Destroy(t))
  {
    hide NoDup;
    ChildlessIdle(t, held);
  }

  lemma DestroyNames(t: Table, held: map<InodePtr, nat>, ex: set<InodePtr>)
    requires NamesOk(t, ex) && NameBucketsOk(t) && LinksOk(t) && ListsOk(t) && Accounts(t, held)
    ensures NamesOk(Destroy(t), ex) && NameBucketsOk(Destroy(t))
  {
    hide NoDup, HashName;
    var u := Destroy(t);
    ChildlessIdle(t, held);
    assert forall d :: d in t.dentries ==> t.dentries[d].parent in u.inodes;
    assert forall d :: d in t.dentries ==> NameBucket(t, d) == NameBucket(u, d);
    forall d, e | d in u.dentries && e in u.dentries && Clash(u.dentries[d], u.dentries[e]) ensures d == e {
      assert Clash(t.dentries[d], t.dentries[e]);
    }
  }

  lemma DestroyNumbers(t: Table)
    requires NumbersOk(t) && ListsOk(t)
    ensures NumbersOk(Destroy(t))
  {
    hide NoDup, HashInode;
    var u := Destroy(t);
    forall i, j | i in u.inodes && j in u.inodes && SameNumber(u.inodes[i], u.inodes[j]) ensures i == j {
      assert SameNumber(t.inodes[i], t.inodes[j]);
    }
  }

  lemma DestroyLists(t: Table, held: map<InodePtr, nat>, ex: set<InodePtr>)
    requires ListsOk(t) && Accounts(t, held) && Tidy(t, ex) && LinksOk(t) && forall e :: e in ex ==> e !in t.purge
    ensures ListsOk(Destroy(t)) && Accounts(Destroy(t), Survivors(t, held)) && Tidy(Destroy(t), ex)
  {
    hide NoDup;
    NoDupNil<InodePtr>();
    var u := Destroy(t);
    assert forall d :: d in t.dentries && t.dentries[d].hashed ==> t.dentries[d].inode in u.inodes;
  }

  lemma DestroyKeeps(t: Table, held: map<InodePtr, nat>, ex: set<InodePtr>)
    requires Inv(t, held, ex) && forall e :: e in ex ==> e !in t.purge
    ensures Inv(Destroy(t), Survivors(t, held), ex)
  {
    hide NumbersOk, NamesOk, NameBucketsOk, LinksOk, ListsOk, Accounts, Tidy, Destroy, Survivors;
    DestroyLinks(t, held, ex);
    DestroyNames(t, held, ex);
    DestroyNumbers(t);
    DestroyLists(t, held, ex);
  }

  // ---------------------------------------------------------------- resolution after eviction

  lemma SettledDown(t: Table, u: Table, d: DentryPtr, par: nat, name: string)
    requires Settles(t, u) && Names(u, d, par, name)
    ensures Names(t, d, par, name) && t.dentries[d] == u.dentries[d]
  {
    assert Stays(t, u, u.dentries[d].parent);
  }

  lemma SettledUp(t: Table, u: Table, d: DentryPtr, par: nat, name: string)
    requires Settles(t, u) && LinksOk(t) && LinksOk(u)
    requires Names(t, d, par, name) && t.dentries[d].inode in u.inodes
    ensures Names(u, d, par, name) && t.dentries[d] == u.dentries[d]
  {
    hide LinksOk;
    LinkedDentry(t, d);
    assert Stays(t, u, t.dentries[d].inode);
    ListedDentry(u, t.dentries[d].inode, d);
    LinkedDentry(u, d);
    assert Stays(t, u, t.dentries[d].parent);
  }

  /** A name still resolves after evictions exactly if its inode is still there. */
  lemma SettledNames(t: Table, u: Table, par: nat, name: string, i: InodePtr)
    requires Settles(t, u) && LinksOk(t) && LinksOk(u)
    ensures Binds(u, par, name, i) <==> Binds(t, par, name, i) && i in u.inodes
  {
    hide Settles, LinksOk;
    if Binds(u, par, name, i) {
      var d :| Names(u, d, par, name) && u.dentries[d].inode == i;
      SettledDown(t, u, d, par, name);
      LinkedDentry(u, d);
    }
    if Binds(t, par, name, i) && i in u.inodes {
      var d :| Names(t, d, par, name) && t.dentries[d].inode == i;
      SettledUp(t, u, d, par, name);
    }
  }

  lemma SettledNumbers(t: Table, u: Table, ino: nat, i: InodePtr)
    requires Settles(t, u)
    ensures HasNumber(u, ino, i) <==> HasNumber(t, ino, i) && i in u.inodes
  {
    if i in u.inodes {
      assert Stays(t, u, i);
    }
  }

  // ---------------------------------------------------------------- facts the prune loop draws on

  lemma EvictsSelf(t: Table)
    ensures Evicts(t, t)
  {
  }

  lemma EvictsKeys(t: Table, u: Table)
    requires Evicts(t, u)
    ensures t.inodes.Keys == u.inodes.Keys && t.lruLimit == u.lruLimit
    ensures forall i :: i in t.purge ==> i in u.purge
  {
  }

  lemma IdleHead(t: Table)
    requires ListsOk(t) && t.lru != []
    ensures t.lru[0] in t.inodes && t.inodes[t.lru[0]].ref == 0
  {
    hide NoDup;
  }

  lemma DestroyFacts(t: Table, held: map<InodePtr, nat>)
    ensures var u := Destroy(t);
      && u.purge == [] && u.lru == t.lru && u.lruLimit == t.lruLimit
      && (forall i :: i in u.inodes <==> i in t.inodes && i !in t.purge)
      && (held.Keys == t.inodes.Keys ==> Survivors(t, held) == map i | i in held && i in u.inodes :: held[i])
  {
  }

  lemma DestroyNothing(t: Table, held: map<InodePtr, nat>)
    requires ListsOk(t)
    ensures t.purge == [] ==> Destroy(t) == t && Survivors(t, held) == held
  {
    hide NoDup;
    if t.purge == [] {
      assert Destroy(t).inodes == t.inodes;
    }
  }

  lemma PruneFacts(t: Table, held: map<InodePtr, nat>)
    requires ListsOk(t)
    ensures t.lruSize == |t.lru| && |t.purge| <= |t.inodes|
  {
    hide NoDup;
    NoDupBound(t.purge, t.inodes.Keys);
  }

  lemma MovedToPurge(t: Table, i: InodePtr)
    requires i in t.inodes && |t.inodeHash| == HASHSIZE
    ensures var m := MoveToPurge(t, i);
      && m.inodes == t.inodes[i := t.inodes[i].(hashed := false)] && m.dentries == t.dentries
      && m.lruLimit == t.lruLimit && m.root == t.root
  {
    hide Remove;
  }

  lemma NothingKept(t: Table, held: map<InodePtr, nat>)
    ensures Supported(t, held, {})
  {
  }

  lemma FadesLists(t: Table, u: Table, drained: set<InodePtr>)
    requires Fades(t, u, drained)
    ensures t.lru <= u.lru && t.purge <= u.purge && t.inodes.Keys == u.inodes.Keys && t.lruLimit == u.lruLimit
  {
    hide HashedOnly;
  }

  lemma PurgedNotHeld(t: Table, held: map<InodePtr, nat>)
    requires ListsOk(t) && Accounts(t, held)
    ensures forall i :: i in held && held[i] > 0 ==> i !in t.purge
  {
    hide NoDup;
  }

  /** The lru list is a queue: evicted at the front, extended at the back. */
  lemma QueueStep(queue: seq<InodePtr>, ret: nat, before: seq<InodePtr>, after: seq<InodePtr>, e: InodePtr)
    requires ret <= |queue| && before == queue[ret..] && before != [] && e == before[0]
    requires before[1..] <= after
    ensures var q := queue + after[|before| - 1..];
      queue <= q && after == q[ret + 1..] && q[..ret + 1] == queue[..ret] + [e]
  {
    var q := queue + after[|before| - 1..];
    assert q[ret + 1..] == queue[ret + 1..] + after[|before| - 1..];
    assert queue[ret + 1..] == before[1..];
    assert after == after[..|before| - 1] + after[|before| - 1..];
  }
}
