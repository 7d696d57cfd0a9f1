/** The inode table: the object whose fields the locked regions of `inode.c` update. */
module InodeTable {
  import opened Options
  import opened Seqs
  import opened InodeState
  import opened InodeLemmas
  import opened DentryLemmas
  import opened Cascade
  import opened Resolution
  import opened Replacement
  import opened Linking
  import opened Outcomes
  import opened Paths
  import opened Walking

  class InodeCache {
    var inodes: map<InodePtr, Inode>
    var dentries: map<DentryPtr, Dentry>
    var inodeHash: seq<seq<InodePtr>>
    var nameHash: seq<seq<DentryPtr>>
    var active: seq<InodePtr>
    var activeSize: int
    var lru: seq<InodePtr>
    var lruSize: int
    var purge: seq<InodePtr>
    var purgeSize: int
    var lruLimit: nat
    var root: InodePtr

    /** References not owned by a dentry: those of the callers and of the code at work. */
    ghost var held: map<InodePtr, nat>

    ghost function View(): Table
      reads this
    {
      Table(inodes, dentries, inodeHash, nameHash, active, activeSize, lru, lruSize, purge, purgeSize, lruLimit, root)
    }

    ghost predicate Ok(ex: set<InodePtr>)
      reads this
    {
      Inv(View(), held, ex)
    }

    // -------------------------------------------------------------- references

    /** `__inode_activate`. */
    method Activate(i: InodePtr)
      requires i in inodes
      modifies this
      ensures View() ==
        var v := Unlisted(old(View()), i);
        v.(active := [i] + v.active, activeSize := old(activeSize) + 1)
      ensures held == old(held)
    {
      active, lru, purge := [i] + Remove(active, i), Remove(lru, i), Remove(purge, i);
      activeSize := activeSize + 1;
    }

    /** `__inode_ref`. */
    method RefInode(i: InodePtr)
      requires i in inodes && i in held
      modifies this
      ensures View() == RefStep(old(View()), i)
      ensures held == old(held)[i := old(held)[i] + 1]
    {
      if inodes[i].ref == 0 {
        lruSize := lruSize - 1;
        Activate(i);
      }
      inodes := inodes[i := inodes[i].(ref := inodes[i].ref + 1)];
      held := held[i := held[i] + 1];
    }

    /** `__inode_unref`, the start of a cascade. `ex` are inodes in transit, `keep` inodes the cascade cannot reach. */
    method UnrefInode(i: InodePtr, ghost ex: set<InodePtr>, ghost keep: set<InodePtr>)
      requires i in inodes && i in held && held[i] > 0
      requires inodes[i].ino != 1 ==> inodes[i].ref > 0
      requires inodes[i].ino == 1 || inodes[i].ref > 1 || Ok(ex)
      requires Supported(View(), held[i := held[i] - 1], keep)
      modifies this
      ensures held == old(held)[i := old(held)[i] - 1]
      ensures Supported(View(), held, keep) && Spares(old(View()), View(), keep)
      ensures old(inodes[i].ino == 1) ==> View() == old(View())
      ensures old(inodes[i].ino != 1 && inodes[i].ref > 1) ==> View() == UnrefDec(old(View()), i)
      ensures old(Ok(ex)) ==> Ok(ex) && Fades(old(View()), View(), {})
      ensures old(inodes[i].ino != 1 && inodes[i].ref == 1) ==> i in inodes && inodes[i].ref == 0
      decreases |dentries|, 4
    {
      hide NoDup, Remove, HashedOnly, LinksOk, NumbersOk, NamesOk, NameBucketsOk, ListsOk, Accounts, Tidy, Fades;
      hide Supported, Spares;
      ghost var t, h := View(), held;
      if inodes[i].ino == 1 {
        held := held[i := held[i] - 1];
        SparesSelf(t, held, keep);
        if Inv(t, h, ex) {
          UnrefRoot(t, h, i);
          FadesSelf(t);
        }
        return;
      }
      inodes := inodes[i := inodes[i].(ref := inodes[i].ref - 1)];
      held := held[i := held[i] - 1];
      if inodes[i].ref == 0 {
        activeSize := activeSize - 1;
        InvSizes(t, h, ex);
        UnrefAccounts(t, h, i);
        NotLast(t, h, keep, i);
        LastUnrefSpares(t, held, keep, i);
        if inodes[i].nlookup > 0 && inodes[i].hashed {
          UnrefToLru(t, h, ex, i);
          UnrefLruLists(t, i);
          PassivateInode(i, ex, keep);
          LastUnrefFades(t, i, MoveToLru(UnrefDec(t, i), i), View());
          SparesTrans(t, MoveToLru(UnrefDec(t, i), i), View(), keep);
        } else {
          UnrefToPurge(t, h, ex, i);
          UnrefPurgeLists(t, i);
          RetireInode(i, ex, keep);
          LastUnrefFades(t, i, MoveToPurge(UnrefDec(t, i), i), View());
          SparesTrans(t, MoveToPurge(UnrefDec(t, i), i), View(), keep);
        }
      } else {
        SharedUnrefSpares(t, held, keep, i);
        if Inv(t, h, ex) {
          UnrefShared(t, h, ex, i);
          UnrefSharedFades(t, i);
        }
      }
    }

    /** The list part of `__inode_passivate`. */
    method ListToLru(i: InodePtr)
      requires i in inodes
      modifies this
      ensures View() == MoveToLru(old(View()), i) && held == old(held)
      ensures inodes == old(inodes) && dentries == old(dentries)
    {
      active, lru, purge := Remove(active, i), Remove(lru, i) + [i], Remove(purge, i);
      lruSize := lruSize + 1;
    }

    /** The list part of `__inode_retire`. */
    method ListToPurge(i: InodePtr)
      requires i in inodes && |inodeHash| == HASHSIZE
      modifies this
      ensures View() == MoveToPurge(old(View()), i) && held == old(held)
      ensures inodes == old(inodes)[i := old(inodes)[i].(hashed := false)] && dentries == old(dentries)
    {
      active, lru, purge := Remove(active, i), Remove(lru, i), Remove(purge, i) + [i];
      purgeSize := purgeSize + 1;
      UnhashInode(i);
    }

    /** `__inode_passivate`: an idle inode that is looked up keeps its hashed dentries. */
    method PassivateInode(i: InodePtr, ghost ex: set<InodePtr>, ghost keep: set<InodePtr>)
      requires i in inodes && inodes[i].ref == 0
      requires Inv(MoveToLru(View(), i), held, ex) && i !in keep && Supported(MoveToLru(View(), i), held, keep)
      modifies this
      ensures Supported(View(), held, keep) && Spares(MoveToLru(old(View()), i), View(), keep)
      ensures held == old(held) && Ok(ex)
      ensures Fades(MoveToLru(old(View()), i), View(), {i}) && i in inodes && inodes[i].ref == 0
      ensures inodes[i].dentryList == HashedOnly(old(dentries), old(inodes)[i].dentryList)
      decreases |dentries|, 3
    {
      hide NoDup, Remove, HashedOnly, Inv, LinksOk, ListsOk, Accounts, Fades, FewerDentries;
      hide MoveToLru, MoveToPurge, Detach, InodeUnhash, HashName, Supported, Spares, Draining;
      ghost var t := MoveToLru(View(), i);
      ListToLru(i);
      var list, k := inodes[i].dentryList, 0;
      HashedOnlyNil(t.dentries);
      DrainStart(t, held, ex, keep, i);
      while k < |list|
        invariant 0 <= k <= |list| && held == old(held) && i in inodes
        invariant Draining(t, View(), held, ex, keep, i)
        invariant inodes[i].dentryList == HashedOnly(t.dentries, list[..k]) + list[k..]
      {
        DrainEnd(t, View(), held, ex, keep, i);
        PassivateNext(i, t, list, k, ex, keep);
        k := k + 1;
      }
      DrainEnd(t, View(), held, ex, keep, i);
      PassivateDone(t.dentries, list);
    }

    /** One turn of the passivation loop: an unhashed dentry is taken out. */
    method PassivateNext(i: InodePtr, ghost t: Table, list: seq<DentryPtr>, k: nat, ghost ex: set<InodePtr>,
        ghost keep: set<InodePtr>)
      requires Draining(t, View(), held, ex, keep, i) && i in inodes && k < |list|
      requires inodes[i].dentryList == HashedOnly(t.dentries, list[..k]) + list[k..]
      modifies this
      ensures Draining(t, View(), held, ex, keep, i) && held == old(held) && i in inodes
      ensures inodes[i].dentryList == HashedOnly(t.dentries, list[..k + 1]) + list[k + 1..]
      decreases |dentries|, 2
    {
      hide NoDup, Remove, HashedOnly, Inv, LinksOk, Fades, Detach, HashName, Supported, Spares;
      var d := list[k];
      ghost var w := View();
      assert d in w.inodes[i].dentryList by { assert list[k..][0] == d; }
      DrainFacts(t, w, held, ex, keep, i, d);
      PassivateStep(w, i, t, list, k);
      if !dentries[d].hashed {
        UnsetDentry(d, ex, keep);
        DrainNext(t, w, held, ex, keep, i, d, View());
      }
    }

    /** `__inode_retire`: an idle inode that is not looked up loses everything. */
    method RetireInode(i: InodePtr, ghost ex: set<InodePtr>, ghost keep: set<InodePtr>)
      requires i in inodes && inodes[i].ref == 0 && |inodeHash| == HASHSIZE
      requires Inv(MoveToPurge(View(), i), held, ex + {i}) && i !in keep
      requires Supported(MoveToPurge(View(), i), held, keep)
      modifies this
      ensures Supported(View(), held, keep) && Spares(MoveToPurge(old(View()), i), View(), keep)
      ensures held == old(held) && Ok(ex)
      ensures Fades(MoveToPurge(old(View()), i), View(), {i}) && i in inodes && inodes[i].ref == 0
      ensures inodes[i].dentryList == []
      decreases |dentries|, 3
    {
      hide NoDup, Remove, HashedOnly, Inv, LinksOk, ListsOk, Accounts, Fades, FewerDentries;
      hide MoveToLru, MoveToPurge, Detach, InodeUnhash, HashName, Supported, Spares, Draining;
      ghost var t := MoveToPurge(View(), i);
      ListToPurge(i);
      InvSizes(t, held, ex + {i});
      NoChildren(t, held, i);
      assert inodes[i].childList == [];
      var list, k := inodes[i].dentryList, 0;
      DrainStart(t, held, ex + {i}, keep, i);
      while k < |list|
        invariant 0 <= k <= |list| && held == old(held) && i in inodes
        invariant Draining(t, View(), held, ex + {i}, keep, i) && inodes[i].dentryList == list[k..]
      {
        DrainEnd(t, View(), held, ex + {i}, keep, i);
        RetireNext(i, t, list, k, ex + {i}, keep);
        k := k + 1;
      }
      DrainEnd(t, View(), held, ex + {i}, keep, i);
      InvSizes(View(), held, ex + {i});
      NoChildren(View(), held, i);
      Unexempt(View(), held, ex, i);
    }

    /** One turn of the retirement loop: the next dentry is taken out. */
    method RetireNext(i: InodePtr, ghost t: Table, list: seq<DentryPtr>, k: nat, ghost ex: set<InodePtr>,
        ghost keep: set<InodePtr>)
      requires Draining(t, View(), held, ex, keep, i) && i in inodes && k < |list| && inodes[i].dentryList == list[k..]
      modifies this
      ensures Draining(t, View(), held, ex, keep, i) && held == old(held) && i in inodes
      ensures inodes[i].dentryList == list[k + 1..]
      decreases |dentries|, 2
    {
      hide NoDup, Remove, HashedOnly, Inv, LinksOk, Fades, Detach, HashName, Supported, Spares;
      var d := list[k];
      ghost var w := View();
      RemoveHead(list[k..]);
      assert list[k..][1..] == list[k + 1..];
      assert d in w.inodes[i].dentryList by { assert list[k..][0] == d; }
      DrainFacts(t, w, held, ex, keep, i, d);
      UnsetDentry(d, ex, keep);
      DrainNext(t, w, held, ex, keep, i, d, View());
    }

    /** `__dentry_unset`. */
    method UnsetDentry(d: DentryPtr, ghost ex: set<InodePtr>, ghost keep: set<InodePtr>)
      requires Ok(ex) && d in dentries && dentries[d].inode !in keep && Supported(View(), held, keep)
      modifies this
      ensures held == old(held) && Ok(ex)
      ensures Supported(View(), held, keep) && Spares(old(View()), View(), keep)
      ensures Fades(Detach(old(View()), d), View(), {})
      ensures old(var p := dentries[d].parent; p in inodes && p in held && held[p] > 0) ==>
        ReleasedOne(old(View()), View(), d)
      decreases |dentries|, 1
    {
      hide NoDup, Remove, HashedOnly, LinksOk, NumbersOk, NamesOk, NameBucketsOk, ListsOk, Accounts, Tidy, Fades;
      hide Supported, Spares;
      ghost var t := View();
      InvSizes(t, held, ex);
      LinkedDentry(t, d);
      DetachKeeps(t, held, ex, d);
      DetachSize(t, d);
      SupportedDetach(t, held, keep, d);
      ghost var h := held;
      var i, p := dentries[d].inode, dentries[d].parent;
      UnhashDentry(d);
      inodes := inodes[i := inodes[i].(dentryList := Remove(inodes[i].dentryList, d))];
      inodes := inodes[p := inodes[p].(childList := Remove(inodes[p].childList, d))];
      dentries := dentries - {d};
      held := held[p := held[p] + 1];
      assert View().dentries == Detach(t, d).dentries;
      assert View() == Detach(t, d);
      HeldParent(View(), held, p);
      SharedParent(t, h, d);
      assert held[p := held[p] - 1] == h;
      UnrefInode(p, ex, keep);
      SparesTrans(t, Detach(t, d), View(), keep);
    }

    /** `__dentry_unhash`. */
    method UnhashDentry(d: DentryPtr)
      requires d in dentries && dentries[d].parent in inodes && |nameHash| == HASHSIZE
      modifies this
      ensures View() == DentryUnhash(old(View()), d) && held == old(held)
    {
      if dentries[d].hashed {
        var b := HashName(inodes[dentries[d].parent].ino, dentries[d].name);
        nameHash := nameHash[b := Remove(nameHash[b], d)];
      }
      dentries := dentries[d := dentries[d].(hashed := false)];
    }

    /** `__inode_unhash`. */
    method UnhashInode(i: InodePtr)
      requires i in inodes && |inodeHash| == HASHSIZE
      modifies this
      ensures View() == InodeUnhash(old(View()), i) && held == old(held)
    {
      if inodes[i].hashed {
        var b := HashInode(inodes[i].ino);
        inodeHash := inodeHash[b := Remove(inodeHash[b], i)];
      }
      inodes := inodes[i := inodes[i].(hashed := false)];
    }

    // -------------------------------------------------------------- eviction

    /** One turn of the prune loop: the inode at the head of the lru list is retired. */
    method EvictOldest(ghost ex: set<InodePtr>)
      requires Ok(ex) && lru != []
      modifies this
      ensures Ok(ex) && held == old(held)
      ensures Evicts(old(View()), View()) && old(lru)[0] in purge && |old(purge)| < |purge|
      ensures old(lru)[1..] <= lru && forall i :: i in lru[|old(lru)| - 1..] ==> old(Looked(View(), i))
      ensures forall i :: i in purge ==> i in old(purge) || i == old(lru)[0] || old(Loose(View(), i))
    {
      hide NoDup, Remove, HashedOnly, Inv, LinksOk, ListsOk, Accounts, Fades, FewerDentries, Evicts, Looked, Loose;
      hide MoveToPurge, HashName, Supported, Spares;
      var entry := lru[0];
      ghost var w := View();
      InvSizes(w, held, ex);
      IdleHead(w);
      LruToPurge(w, held, ex, entry);
      LruPurgeLists(w, entry);
      lruSize := lruSize - 1;
      ghost var m := MoveToPurge(View(), entry);
      MovedToPurge(View(), entry);
      RemoveHead(lru);
      NothingKept(m, held);
      RetireInode(entry, ex, {});
      InvSizes(View(), held, ex);
      EvictOne(w, m, View(), entry);
      EvictShed(w, m, View(), entry);
      FadesLists(m, View(), {entry});
    }

    /** Frees the purged inodes one by one. */
    method DestroyPurged(ghost ex: set<InodePtr>)
      requires Ok(ex) && forall e :: e in ex ==> e !in purge
      modifies this
      ensures View() == Destroy(old(View())) && held == Survivors(old(View()), old(held)) && Ok(ex)
    {
      hide Inv;
      ghost var u := View();
      DestroyKeeps(u, held, ex);
      held := Survivors(u, held);
      var doomed, k := purge, 0;
      purge, purgeSize := [], 0;
      while k < |doomed|
        invariant 0 <= k <= |doomed|
        invariant inodes == map i | i in u.inodes && i !in doomed[..k] :: u.inodes[i]
        invariant View() == Destroy(u).(inodes := inodes) && held == Survivors(u, old(held))
      {
        inodes := inodes - {doomed[k]};
        assert doomed[..k + 1] == doomed[..k] + [doomed[k]];
        k := k + 1;
      }
      assert doomed[..|doomed|] == doomed;
    }

    /** `inode_table_prune`; `queue` is the lru list with everything that joins it at the end during the call. */
    method Prune(ghost ex: set<InodePtr>) returns (ret: nat, ghost queue: seq<InodePtr>)
      requires Ok(ex) && forall e :: e in ex ==> e in held && held[e] > 0
      modifies this
      ensures Ok(ex) && purge == [] && (lruLimit == 0 || |lru| <= lruLimit)
      ensures Settles(old(View()), View()) && Pruned(old(View()), View(), queue) && ret == |queue| - |lru|
      ensures HeldBy(old(held), held, inodes.Keys)
      ensures old(purge == [] && (lruLimit == 0 || |lru| <= lruLimit)) ==> View() == old(View()) && held == old(held)
    {
      hide NoDup, Inv, LinksOk, ListsOk, Accounts, Evicts, Settles, Destroy, Survivors, Looked, Loose, Pruned, Pruning;
      ghost var t := View();
      ret, queue := 0, lru;
      InvSizes(t, held, ex);
      PruneFacts(t, held);
      PruneStart(t);
      while lruLimit != 0 && lruSize > lruLimit
        invariant Ok(ex) && held == old(held) && lruLimit == old(lruLimit)
        invariant lruSize == |lru| && |purge| <= |inodes| && Pruning(t, View(), queue, ret)
        decreases |inodes| - |purge|
      {
        ghost var w := View();
        InvSizes(w, held, ex);
        EvictOldest(ex);
        InvSizes(View(), held, ex);
        EvictsKeys(w, View());
        PruneFacts(View(), held);
        PruneStep(t, w, View(), queue, ret);
        queue := queue + lru[|w.lru| - 1..];
        ret := ret + 1;
      }
      ghost var u := View();
      InvSizes(u, held, ex);
      PurgedNotHeld(u, held);
      PruningFacts(t, u, queue, ret);
      DestroySettles(t, u);
      DestroyNothing(u, held);
      DestroyFacts(u, held);
      PruneEnd(t, u, queue, ret);
      DestroyPurged(ex);
    }

    // -------------------------------------------------------------- searching

    /** `__inode_search`. */
    method SearchInode(ino: nat) returns (found: Option<InodePtr>)
      requires NumbersOk(View())
      ensures found.Some? ==> HasNumber(View(), ino, found.value)
      ensures found.None? ==> forall i: InodePtr :: !HasNumber(View(), ino, i)
    {
      hide NoDup;
      var bucket := inodeHash[HashInode(ino)];
      for k := 0 to |bucket|
        invariant forall j :: 0 <= j < k ==> !HasNumber(View(), ino, bucket[j])
      {
        assert bucket[k] in bucket;
        if inodes[bucket[k]].ino == ino {
          return Some(bucket[k]);
        }
      }
      assert forall i: InodePtr :: HasNumber(View(), ino, i) ==> i in bucket;
      return None;
    }

    /** `__dentry_search`. */
    method SearchDentry(par: nat, name: string) returns (found: Option<DentryPtr>)
      requires NameBucketsOk(View())
      ensures found.Some? ==> Names(View(), found.value, par, name)
      ensures found.None? ==> forall d: DentryPtr :: !Names(View(), d, par, name)
    {
      hide NoDup, StringHash;
      var bucket := nameHash[HashName(par, name)];
      for k := 0 to |bucket|
        invariant forall j :: 0 <= j < k ==> !Names(View(), bucket[j], par, name)
      {
        var d := bucket[k];
        assert d in bucket;
        if inodes[dentries[d].parent].ino == par && dentries[d].name == name {
          return Some(d);
        }
      }
      assert forall d: DentryPtr :: Names(View(), d, par, name) ==> d in bucket;
      return None;
    }

    /** `__dentry_search_for_inode`. */
    method SearchForInode(i: InodePtr, par: nat, name: string) returns (found: Option<DentryPtr>)
      requires LinksOk(View()) && i in inodes
      ensures found.Some? ==> var d := found.value;
        d in inodes[i].dentryList && d in dentries && dentries[d].parent in inodes
        && inodes[dentries[d].parent].ino == par && dentries[d].name == name
      ensures found.None? ==> forall d :: d in inodes[i].dentryList ==>
        && d in dentries && dentries[d].parent in inodes
        && (inodes[dentries[d].parent].ino != par || dentries[d].name != name)
    {
      hide NoDup;
      var list := inodes[i].dentryList;
      for k := 0 to |list|
        invariant forall j :: 0 <= j < k ==>
          list[j] in dentries && dentries[list[j]].parent in inodes
          && (inodes[dentries[list[j]].parent].ino != par || dentries[list[j]].name != name)
      {
        assert list[k] in list;
        if inodes[dentries[list[k]].parent].ino == par && dentries[list[k]].name == name {
          return Some(list[k]);
        }
      }
      return None;
    }

    // -------------------------------------------------------------- linking

    /** `__dentry_create`. */
    method CreateDentry(i: InodePtr, p: InodePtr, name: string, ghost ex: set<InodePtr>) returns (d: DentryPtr)
      requires Ok(ex) && i in inodes && i !in purge && p in inodes && p !in purge && p in held
      requires (inodes[p].hashed || p in ex) && NoDentry(View(), i, p, name)
      modifies this
      ensures Ok(ex) && held == old(held) && d !in old(dentries)
      ensures View() == Attach(RefStep(old(View()), p), d, i, p, name)
      ensures dentries == old(dentries)[d := Dentry(i, p, name, false)] && inodes[p].ref == old(inodes[p].ref) + 1
      ensures inodes[i].dentryList == [d] + old(inodes[i].dentryList)
      ensures inodes[p].childList == [d] + old(inodes[p].childList)
    {
      hide Inv, Remove, NoDentry;
      FreshExists(dentries.Keys);
      ghost var t, h := View(), held;
      RefKeeps(t, h, ex, p);
      RefInode(p);
      ghost var u := View();
      RefPurge(t, h, ex, p);
      NoDentryFrame(t, u, i, p, name);
      d :| d !in dentries;
      AttachKeeps(u, held, ex, d, i, p, name);
      inodes := inodes[p := inodes[p].(childList := [d] + inodes[p].childList)];
      inodes := inodes[i := inodes[i].(dentryList := [d] + inodes[i].dentryList)];
      dentries := dentries[d := Dentry(i, p, name, false)];
      held := held[p := held[p] - 1];
      assert held == h;
    }

    /** `__dentry_hash`. */
    method HashDentry(d: DentryPtr)
      requires d in dentries && dentries[d].parent in inodes && |nameHash| == HASHSIZE
      modifies this
      ensures View() == DentryHash(old(View()), d) && held == old(held)
    {
      var p := dentries[d].parent;
      UnhashDentry(d);
      var b := HashName(inodes[p].ino, dentries[d].name);
      nameHash := nameHash[b := [d] + nameHash[b]];
      dentries := dentries[d := dentries[d].(hashed := true)];
      inodes := inodes[p := inodes[p].(childList := [d] + Remove(inodes[p].childList, d))];
    }

    /** `__inode_hash`. */
    method RehashInode(i: InodePtr)
      requires i in inodes && |inodeHash| == HASHSIZE
      modifies this
      ensures View() == InodeHash(old(View()), i) && held == old(held)
    {
      UnhashInode(i);
      var b := HashInode(inodes[i].ino);
      inodeHash := inodeHash[b := [i] + inodeHash[b]];
      inodes := inodes[i := inodes[i].(hashed := true)];
    }

    // -------------------------------------------------------------- replacing

    /** One turn of the copy loop: dentry `d` of `oldi` gets its copy on `newi`. */
    method CopyDentry(oldi: InodePtr, newi: InodePtr, d: DentryPtr, ghost t: Table, ghost done: set<DentryPtr>)
      requires Ok({newi}) && Copied(t, View(), oldi, newi, done) && CopyReady(View(), oldi, newi)
      requires NamesOk(t, {}) && d in t.dentries && t.dentries[d].inode == oldi && d !in done
      modifies this
      ensures Ok({newi}) && held == old(held) && CopyReady(View(), oldi, newi)
      ensures Copied(t, View(), oldi, newi, done + {d})
    {
      hide Inv, LinksOk, NumbersOk, NamesOk, NameBucketsOk, ListsOk, Accounts, CopyFrame, CopiedDentries, Copied;
      hide Remove, HashName, Attach, RefStep, DentryHash;
      ghost var w := View();
      CopyFacts(w, held, oldi, newi, t, done, d);
      var p, name := dentries[d].parent, dentries[d].name;
      var found := SearchForInode(newi, inodes[p].ino, name);
      var c: DentryPtr;
      if found.None? {
        CopyMissing(w, held, newi, p, name);
        c := CreateDentry(newi, p, name, {newi});
        CopyCreated(t, w, held, oldi, newi, done, c, p, name);
      } else {
        c := found.value;
        CopyFound(w, held, newi, c, d);
      }
      ghost var m := View();
      CopyFacts(m, held, oldi, newi, t, done, d);
      LinkedDentry(m, c);
      CopyStep(t, m, held, oldi, newi, done, d, c);
      if dentries[d].hashed {
        UnhashDentry(d);
        HashDentry(c);
      }
    }

    /** `__copy_dentries`. */
    method CopyDentries(oldi: InodePtr, newi: InodePtr)
      requires Ok({}) && CopyReady(View(), oldi, newi) && !inodes[newi].hashed
      modifies this
      ensures Ok({newi}) && held == old(held) && CopyReady(View(), oldi, newi)
      ensures Copied(old(View()), View(), oldi, newi, ToSet(old(inodes)[oldi].dentryList))
    {
      hide Inv, LinksOk, NumbersOk, NamesOk, NameBucketsOk, ListsOk, Accounts, Tidy, Copied;
      ghost var t := View();
      InvParts(t, held, {});
      CopyStart(t, oldi, newi);
      ExemptMore(t, held, newi);
      var list := inodes[oldi].dentryList;
      ListedDentries(t, oldi);
      assert ToSet(list[..0]) == {};
      for k := 0 to |list|
        invariant Ok({newi}) && held == old(held) && CopyReady(View(), oldi, newi)
        invariant Copied(t, View(), oldi, newi, ToSet(list[..k]))
      {
        NoDupFirst(list, k);
        ToSetSnoc(list, k);
        CopyDentry(oldi, newi, list[k], t, ToSet(list[..k]));
      }
      assert list[..|list|] == list;
    }

    /** One turn of the adoption loop. */
    method AdoptChild(oldi: InodePtr, newi: InodePtr, d: DentryPtr)
      requires oldi in inodes && newi in inodes && oldi != newi && oldi in held && newi in held && d in dentries
      requires (inodes[oldi].ino == 1 || inodes[oldi].ref > 1) && inodes[newi].ref > 0
      modifies this
      ensures held == old(held)
      ensures View() == old(View()).(inodes := Shifted(old(inodes), oldi, newi),
                                     dentries := old(dentries)[d := old(dentries)[d].(parent := newi)])
    {
      hide Inv, Supported, Spares, Fades;
      held := held[oldi := held[oldi] + 1];
      NothingKept(View(), held[oldi := held[oldi] - 1]);
      UnrefInode(oldi, {}, {});
      RefInode(newi);
      held := held[newi := held[newi] - 1];
      assert held == old(held);
      dentries := dentries[d := dentries[d].(parent := newi)];
    }

    /** `__adopt_children`. */
    method AdoptChildren(oldi: InodePtr, newi: InodePtr)
      requires AdoptReady(View(), held, oldi, newi) && NoDup(inodes[oldi].childList) && inodes[newi].ref > 0
      requires forall d :: d in inodes[oldi].childList ==> d in dentries && dentries[d].parent == oldi
      modifies this
      ensures View() == Adopt(old(View()), oldi, newi) && held == old(held)
    {
      hide NoDup, Reparented, Recounted, Shifted;
      ghost var t := View();
      var list := inodes[oldi].childList;
      AdoptNone(t, oldi, newi);
      for k := 0 to |list|
        invariant held == old(held)
        invariant View() == t.(inodes := Recounted(t, oldi, newi, k),
          dentries := Reparented(t.dentries, list[..k], newi))
      {
        NoDupFirst(list, k);
        assert list[k] in list;
        AdoptMore(t, oldi, newi, list, k);
        assert dentries[list[k]].parent == oldi;
        AdoptChild(oldi, newi, list[k]);
      }
      assert list[..|list|] == list;
      RecountedAll(t, oldi, newi);
      inodes := inodes[newi := inodes[newi].(childList := list + inodes[newi].childList)];
      inodes := inodes[oldi := inodes[oldi].(childList := [])];
    }

    /** The end of `__inode_replace`: lookups and root pass to `newi`, and `oldi` leaves the hash. */
    method PassIdentity(oldi: InodePtr, newi: InodePtr)
      requires oldi in inodes && newi in inodes && oldi != newi && |inodeHash| == HASHSIZE
      modifies this
      ensures View() == PassOn(old(View()), oldi, newi) && held == old(held)
    {
      inodes := inodes[newi := inodes[newi].(nlookup := inodes[oldi].nlookup, generation := inodes[oldi].generation)];
      inodes := inodes[oldi := inodes[oldi].(nlookup := 0, generation := 0)];
      UnhashInode(oldi);
      if inodes[newi].ino == 1 {
        root := newi;
      }
    }

    /** `__inode_replace`. */
    method ReplaceInode(oldi: InodePtr, newi: InodePtr)
      requires Ok({}) && CopyReady(View(), oldi, newi) && !inodes[newi].hashed && inodes[newi].ino == inodes[oldi].ino
      requires oldi in held && held[oldi] > 0 && newi in held && held[newi] > 0
      modifies this
      ensures Ok({newi}) && held == old(held)
      ensures Replaced(old(View()), View(), oldi, newi)
    {
      hide Inv, LinksOk, NumbersOk, NamesOk, NameBucketsOk, ListsOk, Accounts, Tidy, Copied, CopyFrame, CopiedDentries;
      hide Adopt, PassOn, Replaced, NoDup, Remove, Emptied;
      ghost var t := View();
      InvParts(t, held, {});
      CopyDentries(oldi, newi);
      ghost var w := View();
      InvParts(w, held, {newi});
      CopiedAccounts(t, w, held, oldi, newi);
      AdoptChildren(oldi, newi);
      AdoptKeeps(w, held, oldi, newi);
      AdoptedPair(w, held, oldi, newi);
      InvParts(View(), held, {newi});
      OldEmptied(t, w, held, oldi, newi);
      PassOnKeeps(View(), held, oldi, newi);
      PassIdentity(oldi, newi);
      ReplacedWhole(t, w, held, oldi, newi);
    }

    /** The replacement in `__inode_link`, with the references it takes and releases around it. */
    method TakeOver(oldi: InodePtr, newi: InodePtr)
      requires Ok({}) && oldi in inodes && newi in inodes && oldi != newi
      requires inodes[oldi].hashed && !inodes[newi].hashed && inodes[newi].ino == inodes[oldi].ino
      requires newi in held && held[newi] > 0
      modifies this
      ensures Ok({newi}) && held == old(held)
      ensures Taken(old(View()), View(), oldi, newi)
      ensures oldi in purge <==> old(inodes)[oldi].ino != 1 && oldi in held && held[oldi] == 0
      ensures oldi in active <==> oldi !in purge
    {
      hide Inv, LinksOk, NumbersOk, NamesOk, NameBucketsOk, ListsOk, Accounts, Tidy, NoDup, Remove, Fades, Spares;
      hide Supported;
      hide Replaced, Taken, SameGraph, RefStep;
      ghost var t, h := View(), held;
      InvParts(t, h, {});
      TakeOverReady(t, h, oldi, newi);
      RefKeeps(t, h, {}, oldi);
      RefSame(t, oldi);
      RefEffect(t, oldi);
      RefInode(oldi);
      ghost var r := View();
      ReplaceInode(oldi, newi);
      ghost var u := View();
      InvParts(r, held, {});
      InvParts(u, held, {newi});
      ReplacedRelease(r, u, held, oldi, newi);
      ghost var keep := inodes.Keys - {oldi};
      assert held[oldi := held[oldi] - 1] == h;
      UnrefInode(oldi, {newi}, keep);
      InvParts(View(), held, {newi});
      TakenLists(t, r, u, View(), oldi, newi);
      TakenWhole(t, r, u, View(), h, oldi, newi);
      TakenOld(t, View(), oldi, newi);
      OldEnds(View(), held, {newi}, oldi);
    }

    /** The first half of `__inode_link`: the inode becomes the one hashed under its number. */
    method TakeNumber(i: InodePtr, ino: nat, mode: nat) returns (ghost replaced: Option<InodePtr>)
      requires Ok({}) && i in inodes && i in held && ino != 0
      requires (inodes[i].ino == 0 || inodes[i].ino == ino) && (held[i] > 0 || inodes[i].hashed)
      modifies this
      ensures Ok({}) && held == old(held)
      ensures Numbered(old(View()), View(), i, ino, replaced) && ModeSet(View(), i, mode)
      ensures PurgedBy(old(View()), View(), held, ino, replaced)
    {
      hide Inv, LinksOk, NumbersOk, NamesOk, NameBucketsOk, ListsOk, Accounts, Tidy, NoDup, Remove, Taken, InodeHash;
      hide Numbered, SameNames, NumberFree;
      ghost var t := View();
      InvParts(t, held, {});
      if held[i] > 0 {
        HeldParent(t, held, i);
      }
      ActiveNotPurged(t, i);
      if inodes[i].ino == 0 {
        UnnumberedUnhashed(t, i);
      }
      SetNumberKeeps(t, held, i, ino, mode);
      inodes := inodes[i := inodes[i].(ino := ino, mode := mode)];
      ghost var s := View();
      InvParts(s, held, {});
      if held[i] > 0 {
        HeldParent(s, held, i);
      }
      var found := SearchInode(ino);
      assert View() == s;
      replaced := None;
      if found.Some? && found.value != i {
        replaced := found;
        TakeOverCase(s, i, ino, found.value);
        TakeOver(found.value, i);
        ghost var v := View();
        InvParts(v, held, {i});
        TakenFree(s, v, ino, found.value, i);
        TakenMode(s, v, found.value, i, mode);
        HashMode(v, i, mode);
        InodeHashKeeps(v, held, {i}, i);
        assert {i} - {i} == {};
        RehashInode(i);
        NumberedByTakeOver(t, s, v, i, ino, mode, found.value);
      } else {
        FreeCase(s, i, ino, found);
        HashMode(s, i, mode);
        InodeHashKeeps(s, held, {}, i);
        assert {} - {i} == {};
        RehashInode(i);
        NumberedAlone(t, s, i, ino, mode);
      }
      NumberedPurge(t, View(), held, i, ino, replaced);
    }

    /** The second half of `__inode_link`: `name` under `p` becomes a hashed name of `i`. */
    method LinkName(i: InodePtr, p: InodePtr, name: string)
      requires Ok({}) && i in inodes && inodes[i].hashed && p in inodes && inodes[p].ref > 0
      modifies this
      ensures held == old(held) && NameSet(old(View()), View(), i, p, name)
      ensures Ok(if old(FitsNow(View(), i, p, name)) then {} else {p})
      ensures old(!FitsNow(View(), i, p, name)) ==> Stale(View(), i, p)
      ensures old(!HasDentry(View(), i, inodes[p].ino, name)) ==> Newest(View(), i, p, name)
    {
      hide Inv, LinksOk, NumbersOk, NamesOk, NameBucketsOk, ListsOk, Accounts, Tidy, NoDup, Remove, HashName;
      hide Attach, RefStep, DentryHash, NameSet, NameReady, NoDentry, SetFrame, Stale, HasDentry, Newest;
      ghost var t := View();
      InvParts(t, held, {});
      ActiveNotPurged(t, i);
      ActiveNotPurged(t, p);
      var found := SearchForInode(i, inodes[p].ino, name);
      assert View() == t;
      OwnDentry(t, i, inodes[p].ino, name, found);
      ghost var ex: set<InodePtr>, r := if FitsNow(t, i, p, name) then {} else {p}, p;
      var d: DentryPtr;
      if found.None? {
        CopyMissing(t, held, i, p, name);
        ExemptMore(t, held, p);
        d := CreateDentry(i, p, name, ex);
        NameCreated(t, i, p, name, d);
      } else {
        d := found.value;
        r := dentries[d].parent;
        NameFound(t, i, name, d);
      }
      ghost var m := View();
      InvParts(m, held, ex);
      NameReadyFacts(t, m, i, r, name, d);
      NameDirectory(t, m, i, r, name, d, p);
      var o := SearchDentry(inodes[p].ino, name);
      assert View() == m;
      NameStep(t, m, held, ex, i, r, name, d, o);
      if found.None? { RenamedNewest(m, i, p, name, d, o); }
      if o.Some? {
        UnhashDentry(o.value);
      }
      HashDentry(d);
      SameDirectory(t, View(), i, r, p, name);
      if !FitsNow(t, i, p, name) {
        StaleParent(t, m, View(), i, p, name, d);
      }
    }

    /** `__inode_link`; `replaced` is the inode that was hashed under the number before, if another was. */
    method LinkInode(i: InodePtr, parent: Option<InodePtr>, name: string, ino: nat, mode: nat)
      returns (ghost replaced: Option<InodePtr>)
      requires i in inodes && i in held && ino != 0
      requires (inodes[i].ino == 0 || inodes[i].ino == ino) && (held[i] > 0 || inodes[i].hashed)
      requires parent.Some? ==> parent.value in inodes && parent.value in held && held[parent.value] > 0
      requires Ok({})
      modifies this
      ensures held == old(held) && LinkedTo(old(View()), View(), i, ino, parent, name, replaced)
      ensures ModeSet(View(), i, mode)
      ensures PurgedBy(old(View()), View(), held, ino, replaced)
      ensures Ok(if old(FitsParent(View(), i, ino, parent, name, replaced)) then {} else {parent.value})
      ensures old(!FitsParent(View(), i, ino, parent, name, replaced)) ==> Stale(View(), i, parent.value)
      ensures old(NewName(View(), i, parent, name, replaced)) ==> Newest(View(), i, parent.value, name)
    {
      hide Inv, LinksOk, NumbersOk, NamesOk, NameBucketsOk, ListsOk, Accounts, Tidy, NoDup, NameSet, Linked, Numbered;
      hide PurgedBy, Fits, FitsNow, Stale, Newest, HasDentry;
      ghost var t := View();
      InvParts(t, held, {});
      replaced := TakeNumber(i, ino, mode);
      ghost var v := View();
      InvParts(v, held, {});
      NumberedHashed(t, v, i, ino, replaced);
      if parent.Some? {
        DirectoryKept(t, v, held, i, ino, parent.value, replaced);
        FitsAlike(t, v, i, ino, parent.value, name, replaced);
        NewAlike(t, v, i, ino, parent, name, replaced);
        LinkName(i, parent.value, name);
        LinkedWithName(t, v, View(), i, ino, parent.value, name, replaced);
        NameMode(v, View(), i, parent.value, name, mode);
        NamePurge(t, v, View(), held, i, ino, parent.value, name, replaced);
      } else {
        LinkedNoName(t, v, i, ino, replaced);
      }
    }

    // -------------------------------------------------------------- public operations

    /** The state between public operations. */
    ghost predicate Good()
      reads this
    {
      Ok({}) && purge == [] && (lruLimit == 0 || |lru| <= lruLimit)
    }

    /** A table with the root alone: hashed as number 1, without references, on the lru list. */
    constructor (limit: nat)
      ensures Good() && lruLimit == limit
      ensures inodes == map[root := Inode(1, 16877, 0, 0, 0, true, [], [])] && held == map[root := 0]
      ensures dentries == map[] && lru == [root]
    {
      root := 0;
      inodes := map[0 := Inode(1, 16877, 0, 0, 0, true, [], [])];
      dentries := map[];
      inodeHash := seq(HASHSIZE, b => if b == 1 then [0] else []);
      nameHash := seq(HASHSIZE, b => []);
      active, activeSize := [], 0;
      lru, lruSize := [0], 1;
      purge, purgeSize := [], 0;
      lruLimit := limit;
      held := map[0 := 0];
      new;
      hide Inv;
      RootOnlyOk(limit);
      assert View() == RootOnly(limit);
    }

    /** `inode_ref`. */
    method Ref(i: InodePtr)
      requires Good() && i in inodes
      modifies this
      ensures Good() && held == old(held)[i := old(held)[i] + 1] && SameNames(old(View()), View())
      ensures View() == RefStep(old(View()), i) && dentries == old(dentries)
      ensures inodes == old(inodes)[i := old(inodes)[i].(ref := old(inodes)[i].ref + 1)]
      ensures i in active && lru == (if old(inodes[i].ref) > 0 then old(lru) else Remove(old(lru), i))
      ensures old(RootSafe(View())) ==> RootSafe(View())
    {
      hide Inv, LinksOk, NumbersOk, NamesOk, NameBucketsOk, ListsOk, Accounts, Tidy, NoDup, Remove, RefStep;
      hide SameNames, SameGraph;
      hide RootSafe;
      ghost var t := View();
      if RootSafe(t) { RootRef(t, i); }
      InvParts(t, held, {});
      RefKeeps(t, held, {}, i);
      RefOutcome(t, i);
      RefFields(t, i);
      RefInode(i);
    }

    /** `inode_new`. */
    method New() returns (i: InodePtr)
      requires Good()
      modifies this
      ensures Good() && i !in old(inodes) && i in inodes && held == old(held)[i := 1]
      ensures View() == Created(old(View()), i) && SameNames(old(View()), View()) && dentries == old(dentries)
      ensures inodes == old(inodes)[i := Inode(0, 0, 0, 0, 1, false, [], [])]
      ensures active == [i] + old(active) && lru == old(lru)
      ensures old(RootSafe(View())) ==> RootSafe(View())
    {
      hide Inv, LinksOk, NumbersOk, NamesOk, NameBucketsOk, ListsOk, Accounts, Tidy, NoDup, SameNames, RefStep;
      hide RootSafe;
      ghost var t := View();
      InvParts(t, held, {});
      FreshExists(inodes.Keys);
      i :| i !in inodes;
      CreatedKeeps(t, held, i);
      CreatedResolution(t, i);
      RootCreated(t, i);
      FreshUnlisted(t, i);
      CreateThenRef(t, i);
      inodes := inodes[i := Inode(0, 0, 0, 0, 0, false, [], [])];
      lru, lruSize := [i] + lru, lruSize + 1;
      held := held[i := 0];
      RefInode(i);
      assert held == old(held)[i := 1];
    }

    /** `inode_search`. */
    method Search(ino: nat, name: Option<string>) returns (found: Option<InodePtr>)
      requires Good()
      modifies this
      ensures Good() && SameNames(old(View()), View())
      ensures found.Some? ==>
        if name.None? then HasNumber(View(), ino, found.value) else Binds(View(), ino, name.value, found.value)
      ensures found.None? ==> forall i: InodePtr ::
        if name.None? then !HasNumber(View(), ino, i) else !Binds(View(), ino, name.value, i)
      ensures found.Some? ==> found.value in old(held) && held == old(held)[found.value := old(held)[found.value] + 1]
      ensures found.Some? ==> found.value in old(inodes) && View() == RefStep(old(View()), found.value)
      ensures found.None? ==> held == old(held) && View() == old(View())
      ensures old(RootSafe(View())) ==> RootSafe(View())
    {
      hide Inv, LinksOk, NumbersOk, NamesOk, NameBucketsOk, ListsOk, Accounts, Tidy, NoDup, RefStep, RootSafe;
      ghost var t := View();
      InvParts(t, held, {});
      found := None;
      if name.None? {
        found := SearchInode(ino);
      } else {
        var d := SearchDentry(ino, name.value);
        if d.Some? {
          LinkedDentry(t, d.value);
          found := Some(dentries[d.value].inode);
        }
      }
      if found.Some? {
        Ref(found.value);
      }
    }

    /** `inode_unref`; `mid` is the table before pruning, `queue` as for `Prune`. */
    method Unref(i: InodePtr) returns (ghost mid: Table, ghost queue: seq<InodePtr>)
      requires Good() && i in inodes && i in held && held[i] > 0
      modifies this
      ensures Good() && Settles(old(View()), View())
      ensures NamesKept(old(View()), View()) && NumbersKept(old(View()), View())
      ensures HeldBy(old(held)[i := old(held)[i] - 1], held, inodes.Keys)
      ensures Shed(old(View()), mid) && Pruned(mid, View(), queue) && mid.lruLimit == old(lruLimit)
      ensures old(inodes)[i].ino != 1 && old(inodes)[i].ref == 1 ==>
        if old(Looked(View(), i)) then i in mid.lru else i in mid.purge
      ensures old(inodes)[i].ino == 1 ==> View() == old(View())
      ensures old(inodes)[i].ino != 1 && old(inodes)[i].ref > 1 ==>
        View() == old(View()).(inodes := old(inodes)[i := old(inodes)[i].(ref := old(inodes)[i].ref - 1)])
      ensures old(RootSafe(View())) ==> RootSafe(View())
    {
      hide Inv, LinksOk, NumbersOk, NamesOk, NameBucketsOk, ListsOk, Accounts, Tidy, NoDup, Supported, Spares, Fades;
      hide Settles, NamesKept, NumbersKept, Evicts, Shed, Pruned, HeldBy, RootSafe, Looked;
      ghost var t := View();
      InvParts(t, held, {});
      NothingKept(t, held[i := held[i] - 1]);
      UnrefReady(t, held, i);
      UnrefInode(i, {}, {});
      mid := View();
      InvParts(mid, held, {});
      FadesEvicts(t, mid);
      FadesShed(t, mid);
      EvictsKeys(t, mid);
      if t.inodes[i].ino != 1 && t.inodes[i].ref == 1 { IdleEnds(t, mid, i); }
      var n;
      n, queue := Prune({});
      InvParts(View(), held, {});
      PrunedPurge(mid, View(), queue);
      EvictSettle(t, mid, View());
      SettledAll(t, View());
      if RootSafe(t) { RootShed(t, mid); RootPruned(mid, View(), queue); }
    }

    /** The inode that stands for a handle: itself, or the one hashed under its number since it was replaced. */
    method Current(i: InodePtr) returns (x: InodePtr)
      requires Ok({}) && i in inodes
      requires inodes[i].hashed || exists j: InodePtr :: HasNumber(View(), inodes[i].ino, j)
      ensures HasNumber(View(), inodes[i].ino, x) && (inodes[i].hashed ==> x == i)
    {
      hide Inv, LinksOk, NumbersOk, NamesOk, NameBucketsOk, ListsOk, Accounts, Tidy;
      InvParts(View(), held, {});
      x := i;
      if !inodes[i].hashed {
        ghost var j: InodePtr :| HasNumber(View(), inodes[i].ino, j);
        var found := SearchInode(inodes[i].ino);
        assert HasNumber(View(), inodes[i].ino, j);
        x := found.value;
      }
    }

    /** `inode_link`; `mid` is the table before pruning, `queue` as for `Prune`. */
    method Link(i: InodePtr, parent: Option<InodePtr>, name: string, ino: nat, mode: nat)
      returns (ghost replaced: Option<InodePtr>, ghost mid: Table, ghost queue: seq<InodePtr>)
      requires i in inodes && i in held && held[i] > 0 && ino != 0 && (inodes[i].ino == 0 || inodes[i].ino == ino)
      requires parent.Some? ==> parent.value in inodes && parent.value in held && held[parent.value] > 0
      requires Good()
      modifies this
      ensures HeldBy(old(held), held, inodes.Keys)
      ensures LinkedTo(old(View()), mid, i, ino, parent, name, replaced) && ModeSet(mid, i, mode)
      ensures PurgedBy(old(View()), mid, old(held), ino, replaced)
      ensures old(NewName(View(), i, parent, name, replaced)) ==> Newest(mid, i, parent.value, name)
      ensures Settles(mid, View()) && NamesKept(mid, View()) && NumbersKept(mid, View()) && Pruned(mid, View(), queue)
      ensures mid.purge == [] && (mid.lruLimit == 0 || |mid.lru| <= mid.lruLimit) ==> View() == mid
      ensures Good() <==> old(FitsParent(View(), i, ino, parent, name, replaced))
      ensures old(RootSafe(View())) ==> RootSafe(View())
    {
      hide Inv, LinksOk, NumbersOk, NamesOk, NameBucketsOk, ListsOk, Accounts, Tidy, Linked, Settles, NamesKept;
      hide NumbersKept;
      hide Pruned, PurgedBy, HeldBy, Stale, Fits, RootSafe, Newest, HasDentry;
      ghost var t := View();
      replaced := LinkInode(i, parent, name, ino, mode);
      mid := View();
      ghost var ex: set<InodePtr> := if FitsParent(t, i, ino, parent, name, replaced) then {} else {parent.value};
      InvParts(mid, held, ex);
      HeldParent(mid, held, i);
      var n;
      n, queue := Prune(ex);
      InvParts(View(), held, ex);
      SettledAll(mid, View());
      HeldStays(old(held), held, inodes.Keys, i);
      HeldParent(View(), held, i);
      if ex != {} {
        StaleStays(mid, View(), i, parent.value);
        StaleBreaks(View(), i, parent.value);
        assert Inv(View(), held, {}) ==> NamesOk(View(), {}) by {
          if Inv(View(), held, {}) { InvParts(View(), held, {}); }
        }
      }
      if RootSafe(t) {
        RootLinked(t, mid, i, ino, Directory(t, i, ino, parent), if parent.Some? then name else "", replaced);
        RootPruned(mid, View(), queue);
      }
    }

    /** `inode_lookup`. */
    method Lookup(i: InodePtr)
      requires Good() && i in inodes
      requires inodes[i].hashed || exists j: InodePtr :: HasNumber(View(), inodes[i].ino, j)
      modifies this
      ensures Good() && held == old(held)
      ensures exists x ::
        && old(HasNumber(View(), inodes[i].ino, x))
        && inodes == old(inodes)[x := old(inodes)[x].(nlookup := old(inodes)[x].nlookup + 1)]
      ensures View() == old(View()).(inodes := inodes)
      ensures old(RootSafe(View())) ==> RootSafe(View())
    {
      hide Inv;
      var x := Current(i);
      LookupsChange(View(), held, x, inodes[x].nlookup + 1);
      inodes := inodes[x := inodes[x].(nlookup := inodes[x].nlookup + 1)];
    }

    /** `inode_forget`: nothing goes, since forgetting makes nothing idle. */
    method Forget(i: InodePtr, nlookup: nat) returns (ghost x: InodePtr)
      requires Good() && i in inodes
      requires inodes[i].hashed || exists j: InodePtr :: HasNumber(View(), inodes[i].ino, j)
      requires forall j: InodePtr :: HasNumber(View(), inodes[i].ino, j) ==> nlookup <= inodes[j].nlookup
      modifies this
      ensures Good() && held == old(held) && old(HasNumber(View(), inodes[i].ino, x))
      ensures View() == old(View()).(inodes := old(inodes)[x := old(inodes)[x].(nlookup :=
        if nlookup == 0 then 0 else old(inodes)[x].nlookup - nlookup)])
      ensures old(RootSafe(View())) ==> RootSafe(View())
    {
      hide Inv, Settles, Pruned;
      var c := Current(i);
      x := c;
      LookupsChange(View(), held, c, if nlookup == 0 then 0 else inodes[c].nlookup - nlookup);
      inodes := inodes[c := inodes[c].(nlookup := if nlookup == 0 then 0 else inodes[c].nlookup - nlookup)];
      var n; ghost var q;
      n, q := Prune({});
    }

    /** `__inode_unlink`: removes the dentry of `x` under the name, hashed or not, if there is one. */
    method UnlinkInode(x: InodePtr, par: nat, name: string) returns (ghost mid: Table)
      requires Ok({}) && x in inodes
      modifies this
      ensures Ok({}) && held == old(held)
      ensures SameInodes(old(View()), mid) && LinksOk(mid) && Unnamed(old(View()), mid, x, par, name)
      ensures Evicts(mid, View()) && Shed(mid, View())
      ensures old(forall p :: p in inodes && inodes[p].hashed && inodes[p].ino == par ==> p in held && held[p] > 0)
              ==> Undisturbed(old(View()), View()) && Unnamed(old(View()), View(), x, par, name)
    {
      hide Inv, LinksOk, NumbersOk, NamesOk, NameBucketsOk, ListsOk, Accounts, Tidy, NoDup, Remove, HashName, Detach;
      hide Supported, Spares, Fades, Evicts, Shed, Unnamed, Undisturbed, ReleasedOne;
      ghost var t, h := View(), held;
      InvParts(t, h, {});
      var found := SearchForInode(x, par, name);
      assert View() == t;
      if found.Some? {
        var d := found.value;
        UnlinkFound(t, h, x, d);
        DetachDentries(t, d);
        DetachedNames(t, Detach(t, d), h, d);
        DetachLinks(t, d);
        mid := Detach(t, d);
        DetachedInodes(t, d);
        NothingKept(t, h);
        UnsetDentry(d, {}, {});
        InvParts(View(), held, {});
        FadesEvicts(mid, View());
        DetachLists(t, h, d);
        FadesShed(mid, View());
        if h[t.dentries[d].parent] > 0 {
          ReleasedFacts(t, View(), h, d);
        }
      } else {
        mid := t;
        NoNameLeft(t, x, par, name);
        EvictsSelf(t);
        ShedSelf(t);
        UndisturbedSelf(t);
      }
    }

    /**
    `inode_unlink`; `mid` is the table without the dentry, `low` the table when the release of its directory has come
    to an end, `queue` as for `Prune`.
    */
    method Unlink(i: InodePtr, p: InodePtr, name: string)
      returns (ghost x: InodePtr, ghost mid: Table, ghost low: Table, ghost queue: seq<InodePtr>)
      requires Good() && i in inodes && p in inodes
      requires inodes[i].hashed || exists j: InodePtr :: HasNumber(View(), inodes[i].ino, j)
      modifies this
      ensures Good() && HeldBy(old(held), held, inodes.Keys)
      ensures old(HasNumber(View(), inodes[i].ino, x)) && Unnamed(old(View()), mid, x, old(inodes)[p].ino, name)
      ensures SameInodes(old(View()), mid) && Shed(mid, low) && low.lruLimit == mid.lruLimit
      ensures Pruned(low, View(), queue)
      ensures Settles(mid, View()) && NamesKept(mid, View()) && NumbersKept(mid, View())
      ensures old(RootSafe(View())) ==> RootSafe(View())
    {
      hide Inv, LinksOk, NumbersOk, NamesOk, NameBucketsOk, ListsOk, Accounts, Tidy, Settles, NamesKept, NumbersKept;
      hide Evicts;
      hide Unnamed, Undisturbed, Pruned, HeldBy, RootSafe, SameInodes, Shed;
      ghost var t := View();
      InvParts(t, held, {});
      var c := Current(i);
      x := c;
      mid := UnlinkInode(c, inodes[p].ino, name);
      low := View();
      InvParts(low, held, {});
      EvictsKeys(mid, low);
      var n;
      n, queue := Prune({});
      InvParts(View(), held, {});
      PrunedPurge(low, View(), queue);
      EvictSettle(mid, low, View());
      SettledAll(mid, View());
      if RootSafe(t) { RootUnlinked(t, mid, low); RootPruned(low, View(), queue); }
    }

    /** The locked region of `inode_rename`. */
    method RenameInode(srcdir: InodePtr, srcname: string, dstdir: InodePtr, dstname: string, x: InodePtr, mode: nat)
      requires Ok({}) && x in inodes && inodes[x].hashed && inodes[x].ino != 0
      requires srcdir in inodes && inodes[srcdir].hashed && srcdir in held && held[srcdir] > 0
      requires dstdir in inodes && inodes[dstdir].hashed && dstdir in held && held[dstdir] > 0
      modifies this
      ensures Ok({}) && held == old(held)
      ensures RenamedTo(old(View()), View(), x, old(inodes)[srcdir].ino, srcname, old(inodes)[dstdir].ino, dstname)
      ensures ModeSet(View(), x, mode)
    {
      hide Inv, LinksOk, NumbersOk, NamesOk, NameBucketsOk, ListsOk, Accounts, Tidy, NoDup, Supported, Spares, Fades;
      hide Evicts, Shed, Unnamed, Undisturbed, ReleasedOne, Linked, RenamedTo, Cleared, Fits, Stale, PurgedBy;
      ghost var t, h := View(), held;
      ghost var ino, sp, dp := inodes[x].ino, inodes[srcdir].ino, inodes[dstdir].ino;
      InvParts(t, h, {});
      var found := SearchDentry(inodes[dstdir].ino, dstname);
      assert View() == t;
      if found.Some? {
        OnlyDirectory(t, h, found.value, dstdir, dstname);
        NothingKept(t, h);
        UnsetDentry(found.value, {}, {});
        ReleasedFacts(t, View(), h, found.value);
        ClearedOne(t, View(), dp, dstname, t.dentries[found.value].inode);
      } else {
        ClearedNone(t, dp, dstname);
      }
      ghost var a := View();
      ClearedFacts(t, a, dp, dstname, x, srcdir, dstdir);
      InvParts(a, h, {});
      OnlySource(a, h, srcdir);
      ghost var mid := UnlinkInode(x, inodes[srcdir].ino, srcname);
      ghost var b := View();
      UndisturbedFacts(a, b, x, dstdir);
      InvParts(b, h, {});
      if inodes[dstdir].ino == ino {
        NumberUnique(b, ino, dstdir, x);
      }
      ghost var replaced := LinkInode(x, Some(dstdir), dstname, inodes[x].ino, mode);
      FitsHashed(b, x, ino, dstdir, dstname, replaced);
      RenameWhole(t, a, b, View(), h, x, ino, sp, srcname, dp, dstname, replaced);
    }

    /** `inode_rename`: nothing goes, since a rename makes nothing idle. */
    method Rename(srcdir: InodePtr, srcname: string, dstdir: InodePtr, dstname: string, i: InodePtr, mode: nat)
      returns (ghost x: InodePtr)
      requires Good() && i in inodes && inodes[i].ino != 0
      requires inodes[i].hashed || exists j: InodePtr :: HasNumber(View(), inodes[i].ino, j)
      requires srcdir in inodes && inodes[srcdir].hashed && srcdir in held && held[srcdir] > 0
      requires dstdir in inodes && inodes[dstdir].hashed && dstdir in held && held[dstdir] > 0
      modifies this
      ensures Good() && held == old(held)
      ensures old(HasNumber(View(), inodes[i].ino, x)) && (old(inodes)[i].hashed ==> x == i)
      ensures RenamedTo(old(View()), View(), x, old(inodes)[srcdir].ino, srcname, old(inodes)[dstdir].ino, dstname)
      ensures ModeSet(View(), x, mode)
      ensures old(RootSafe(View())) ==> RootSafe(View())
    {
      hide Inv, LinksOk, NumbersOk, NamesOk, NameBucketsOk, ListsOk, Accounts, Tidy, Settles, Pruned, RenamedTo;
      hide RootSafe;
      ghost var t := View();
      var c := Current(i);
      x := c;
      RenameInode(srcdir, srcname, dstdir, dstname, c, mode);
      RenamedLists(t, View(), c, t.inodes[srcdir].ino, srcname, t.inodes[dstdir].ino, dstname);
      var n; ghost var q;
      n, q := Prune({});
    }

    // -------------------------------------------------------------- paths

    /** `__dentry_search_arbit`. */
    method SearchArbit(i: InodePtr) returns (found: Option<DentryPtr>)
      requires LinksOk(View()) && i in inodes
      ensures found == Arbit(dentries, inodes[i].dentryList)
      ensures match found {
        case None => inodes[i].dentryList == []
        case Some(d) => exists k :: Picked(dentries, inodes[i].dentryList, k) && inodes[i].dentryList[k] == d }
    {
      hide LinksOk, HashedOnly, Arbit, Picked;
      var list := inodes[i].dentryList;
      forall k | 0 <= k < |list| ensures list[k] in dentries { ListedDentry(View(), i, list[k]); }
      HashedOnlyNil(dentries);
      assert list[..0] == [];
      for k := 0 to |list|
        invariant HashedOnly(dentries, list[..k]) == [] && forall j :: 0 <= j < k ==> !dentries[list[j]].hashed
      {
        FirstHashed(dentries, list, k);
        if dentries[list[k]].hashed {
          PickedAt(dentries, list, k);
          return Some(list[k]);
        }
      }
      assert list[..|list|] == list;
      NonePicked(dentries, list);
      found := if list == [] then None else Some(list[0]);
    }

    /** The first loop of `inode_path`: the length of the names on the way up. */
    method MeasurePath(i: InodePtr, ghost chain: seq<DentryPtr>) returns (n: nat)
      requires LinksOk(View()) && Chain(View(), i, chain)
      ensures n == |PathOf(View(), chain)|
    {
      hide LinksOk, Arbit, PathOf;
      ghost var t := View();
      PathNil(t);
      n := 0;
      var cur := i;
      var trav := SearchArbit(i);
      ghost var rest := chain;
      while trav.Some?
        invariant Chain(t, cur, rest) && trav == Arbit(dentries, inodes[cur].dentryList)
        invariant n + |PathOf(t, rest)| == |PathOf(t, chain)|
        decreases |rest|
      {
        PathStep(t, rest);
        n := n + 1 + |dentries[trav.value].name|;
        cur := dentries[trav.value].parent;
        rest := rest[1..];
        trav := SearchArbit(cur);
      }
    }

    /** The second loop of `inode_path`: the names are written from the back; the front is reached exactly. */
    method FillPath(i: InodePtr, buf: array<char>, end: nat, ghost chain: seq<DentryPtr>, ghost full: string)
      requires LinksOk(View()) && Chain(View(), i, chain)
      requires end == |PathOf(View(), chain)| && PathOf(View(), chain) <= full && buf.Length == |full| + 1
      requires buf[end..] == full[end..] + "\0"
      modifies buf
      ensures buf[..] == full + "\0"
    {
      hide LinksOk, Arbit, PathOf;
      ghost var t := View();
      PathNil(t);
      var c, cur := end, i;
      var trav := SearchArbit(i);
      ghost var rest := chain;
      while trav.Some?
        invariant Chain(t, cur, rest) && trav == Arbit(dentries, inodes[cur].dentryList)
        invariant c == |PathOf(t, rest)| && PathOf(t, rest) <= full
        invariant buf[c..] == full[c..] + "\0"
        decreases |rest|
      {
        var name := dentries[trav.value].name;
        PathStep(t, rest);
        PathPrefix(full, PathOf(t, rest[1..]), name);
        ghost var before := buf[..];
        PutComponent(buf, c, name);
        FilledStep(full, c, name, before, buf[..]);
        c := c - (|name| + 1);
        cur := dentries[trav.value].parent;
        rest := rest[1..];
        trav := SearchArbit(cur);
      }
      assert full[0..] == full;
    }

    /** `inode_path`, along the chain of dentries it walks. */
    method Path(i: InodePtr, name: Option<string>, ghost chain: seq<DentryPtr>)
      returns (ret: int, path: Option<array<char>>)
      requires LinksOk(View()) && i in inodes && Chain(View(), i, chain)
      ensures path.Some? ==> fresh(path.value)
      ensures (ret, if path.Some? then Some(path.value[..]) else None) == PathResult(View(), i, name, chain)
      ensures path == None <==> inodes[i].ino != 1 && chain == []
      ensures path == None ==> ret == -ENOENT
      ensures path.Some? ==> path.value.Length == ret + 1
      ensures path.Some? && name.Some? ==> path.value[..] == PathOf(View(), chain) + "/" + name.value + "\0"
      ensures path.Some? && name.None? ==>
        path.value[..] == if inodes[i].ino == 1 then "/\0" else PathOf(View(), chain) + "\0"
    {
      hide LinksOk, Arbit, PathOf;
      ghost var t := View();
      var n := MeasurePath(i, chain);
      PathLength(t, chain);
      if inodes[i].ino != 1 && n == 0 {
        return -ENOENT, None;
      }
      if inodes[i].ino == 1 && name.None? {
        var slash := new char[2](_ => '\0');
        slash[0] := '/';
        assert slash[..] == "/\0";
        return 1, Some(slash);
      }
      ghost var full := PathOf(t, chain) + Suffix(name);
      var len := if name.Some? then |name.value| + 1 else 0;
      var buf := new char[n + len + 1](_ => '\0');
      if name.Some? {
        PutComponent(buf, n + len, name.value);
      }
      FilledStart(t, chain, name, n, buf[..]);
      FillPath(i, buf, n, chain, full);
      ret, path := n + len, Some(buf);
    }

    /** One turn of the walk: `comp` is looked up in `parent`; on success the new inode is held too. */
    method WalkOne(parent: InodePtr, comp: string, ghost t: Table, ghost h: map<InodePtr, nat>)
      returns (curr: Option<InodePtr>)
      requires Good() && Standing(t, h, View(), held, parent)
      modifies this
      ensures Good() && SameWorld(t, View()) && inodes.Keys == old(inodes).Keys
      ensures inodes[parent].ino == old(inodes)[parent].ino
      ensures curr.Some? ==>
        && Binds(old(View()), old(inodes)[parent].ino, comp, curr.value) && curr.value in inodes
        && inodes[curr.value].hashed && inodes[curr.value].ino == old(inodes)[curr.value].ino
        && curr.value in old(held) && held == old(held)[curr.value := old(held)[curr.value] + 1]
        && inodes[parent].ref > 1
      ensures curr.None? ==>
        && View() == old(View()) && held == old(held)
        && forall c: InodePtr :: !Binds(old(View()), old(inodes)[parent].ino, comp, c)
      ensures old(RootSafe(View())) ==> RootSafe(View())
    {
      hide Inv, LinksOk, NumbersOk, NamesOk, NameBucketsOk, ListsOk, Accounts, Tidy, SameNames, SameWorld, RefStep;
      hide Binds;
      hide RootSafe;
      ghost var v, w := View(), held;
      curr := Search(inodes[parent].ino, Some(comp));
      if curr.Some? {
        SameBinds(v, View(), v.inodes[parent].ino, comp, curr.value);
        DirectoryShared(v, w, parent, comp, curr.value);
        RefWorld(v, curr.value);
        RefEffect(v, curr.value);
        SameWorldTrans(t, v, View());
      } else {
        SameBinds(v, View(), v.inodes[parent].ino, comp, parent);
      }
    }

    /** Letting go of a directory the walk has passed. */
    method LeaveDirectory(parent: InodePtr, curr: InodePtr, ghost t: Table, ghost h: map<InodePtr, nat>)
      requires Good() && SameWorld(t, View()) && parent in inodes && parent in h && curr in h && inodes[parent].ref > 1
      requires curr in inodes && inodes[curr].hashed
      requires held == h[parent := h[parent] + 1][curr := h[parent := h[parent] + 1][curr] + 1]
      modifies this
      ensures Good() && Standing(t, h, View(), held, curr) && inodes[curr].ino == old(inodes)[curr].ino
      ensures old(RootSafe(View())) ==> RootSafe(View())
    {
      hide RootSafe, Shed, Pruned, Looked;
      hide Inv, SameWorld, Settles, NamesKept, NumbersKept, HeldBy, LinksOk, NumbersOk, NamesOk, NameBucketsOk;
      hide ListsOk, Accounts, Tidy;
      ghost var v := View();
      InvParts(v, held, {});
      assert h.Keys == inodes.Keys;
      ghost var mid, queue := Unref(parent);
      if v.inodes[parent].ino != 1 {
        UnrefWorld(v, parent);
        SameWorldTrans(t, v, View());
      }
      HeldBack(h, parent, curr, held, inodes.Keys);
    }

    /** A path without components leads to the root, which gains one reference. */
    method StayAtRoot(parent: InodePtr, ghost t: Table, ghost h: map<InodePtr, nat>)
      requires parent in t.inodes && parent in h && h.Keys == t.inodes.Keys && HasNumber(t, 1, parent)
      requires View() == RefStep(t, parent) && held == h[parent := h[parent] + 1]
      requires Good() && Standing(t, h, View(), held, parent)
      modifies this
      ensures Good() && held == h[parent := h[parent] + 1] && SameNames(t, View())
      ensures old(RootSafe(View())) ==> RootSafe(View())
    {
      hide Inv, LinksOk, NumbersOk, NamesOk, NameBucketsOk, ListsOk, Accounts, Tidy, SameNames, SameWorld, RefStep;
      hide RootSafe;
      RefEffect(t, parent);
      RootTwice(View(), parent);
      RefEffect(View(), parent);
      Ref(parent);
      SameWorldTrans(t, RefStep(t, parent), View());
      LeaveDirectory(parent, parent, t, h);
      StandNames(t, h, View(), held, parent);
    }

    /**
    `inode_from_path`; when the walk fails, `last` is the table in which its last directory is let go, `mid` the one
    before pruning, and `queue` as for `Prune`.
    */
    method FromPath(path: string)
      returns (found: Option<InodePtr>, ghost last: Table, ghost mid: Table, ghost queue: seq<InodePtr>)
      requires Good() && HasNumber(View(), 1, root)
      modifies this
      ensures Good()
      ensures found.Some? ==>
        && found.value in old(held) && held == old(held)[found.value := old(held)[found.value] + 1]
        && SameNames(old(View()), View())
        && (if Tokens(path) == [] then found.value == old(root) else WalksTo(old(View()), 1, Tokens(path), found.value))
      ensures found.None? ==>
        && Tokens(path) != [] && (forall i: InodePtr :: !WalksTo(old(View()), 1, Tokens(path), i))
        && NamesKept(old(View()), View()) && HeldBy(old(held), held, inodes.Keys)
        && SameWorld(old(View()), last) && Shed(last, mid) && Pruned(mid, View(), queue)
      ensures RootSafe(View())
    {
      hide Shed, Pruned, Looked, RootSafe;
      hide Inv, LinksOk, NumbersOk, NamesOk, NameBucketsOk, ListsOk, Accounts, Tidy, SameNames, SameWorld, Settles;
      hide HeldBy;
      hide Binds, WalksTo, RefStep, UnrefDec, NamesKept, NumbersKept;
      ghost var t, h := View(), held;
      InvParts(t, h, {});
      var parent := root;
      StandStart(t, h, parent);
      RefEffect(t, parent);
      Ref(parent);
      RootOnceHeld(t);
      var comps, k := Tokens(path), 0;
      found, last, mid, queue := None, t, t, [];
      if comps == [] {
        StayAtRoot(parent, t, h);
        found := Some(parent);
        return;
      }
      assert comps[0..] == comps;
      while k < |comps|
        invariant 0 <= k < |comps| && Good() && Standing(t, h, View(), held, parent) && RootSafe(View())
        invariant forall i: InodePtr :: WalksTo(t, 1, comps, i) <==> WalksTo(t, inodes[parent].ino, comps[k..], i)
        decreases |comps| - k
      {
        ghost var v := View();
        var curr := WalkOne(parent, comps[k], t, h);
        if curr.None? {
          WalkEnds(t, v, v.inodes[parent].ino, comps[k..]);
          break;
        }
        StandWorld(t, h, v, parent);
        forall i: InodePtr
          ensures WalksTo(t, 1, comps, i) <==>
            if k + 1 == |comps| then i == curr.value else WalksTo(t, v.inodes[curr.value].ino, comps[k + 1..], i)
        {
          WalkStep(t, h, v, v.inodes[parent].ino, comps[k..], curr.value, i);
          assert comps[k..][1..] == comps[k + 1..];
        }
        LeaveDirectory(parent, curr.value, t, h);
        if k + 1 == |comps| {
          StandNames(t, h, View(), held, curr.value);
          found := curr;
          return;
        }
        parent, k := curr.value, k + 1;
      }
      last := View();
      StandHeld(t, h, last, held, parent);
      mid, queue := Unref(parent);
      FailedWalk(t, h, last, View(), parent, held);
    }

    /** The path of an inode whose chain of hashed dentries reaches the root leads back to that inode. */
    method PathAndBack(i: InodePtr, ghost chain: seq<DentryPtr>) returns (found: Option<InodePtr>)
      requires Good() && HasNumber(View(), 1, root) && i in inodes && inodes[i].ino != 1 && Rooted(View(), i, chain)
      modifies this
      ensures Good() && found == Some(i) && i in old(held) && held == old(held)[i := old(held)[i] + 1]
      ensures SameNames(old(View()), View())
    {
      hide Inv, LinksOk, NumbersOk, NamesOk, NameBucketsOk, ListsOk, Accounts, Tidy, SameNames, WalksTo, PathOf;
      hide Tokens, Arbit, Chain;
      ghost var t := View();
      InvParts(t, held, {});
      PathRoundTrip(t, i, chain);
      WalkNotEmpty(t, 1, Tokens(PathOf(t, chain)), i);
      PlainResult(t, i, chain);
      var ret, buf := Path(i, None, chain);
      assert buf.value[..] == PathOf(t, chain) + "\0" && |buf.value[..]| == buf.value.Length;
      var path := buf.value[..ret];
      ghost var last, mid, queue;
      found, last, mid, queue := FromPath(path);
      if found.Some? {
        WalkUnique(t, old(held), 1, Tokens(path), found.value, i);
      }
    }

    // -------------------------------------------------------------- the root of a table

    /** A new inode without a directory, looked up once. */
    method Newcomer() returns (i: InodePtr)
      requires Good() && HasNumber(View(), 1, root)
      modifies this
      ensures Good() && Looked(View(), i) && inodes[i].ref == 1 && i in held && held[i] == 1
      ensures lru == old(lru) && lruLimit == old(lruLimit) && root == old(root) && HasNumber(View(), 1, root)
    {
      hide Inv, LinksOk, NumbersOk, NamesOk, NameBucketsOk, ListsOk, Accounts, Tidy, NoDup, Pruned, Settles, Fits;
      hide SameNames, NamesKept, NumbersKept, HeldBy, RootSafe, PurgedBy, LinkedTo;
      ghost var t := View();
      i := New();
      ghost var a, h := View(), held;
      FreshExists((set j | j in inodes :: inodes[j].ino) + {0, 1});
      var ino :| ino !in (set j | j in inodes :: inodes[j].ino) + {0, 1};
      ghost var replaced, mid, queue := Link(i, None, "", ino, 0);
      NewNumber(a, mid, i, ino, replaced);
      PurgedNone(a, mid, h, ino);
      InvParts(View(), held, {});
      HeldStays(h, held, inodes.Keys, i);
      Lookup(i);
      LookedUp(t, a, mid, View(), i, ino);
    }

    /** A newcomer is let go; `k` is the place of the root on the lru list. */
    method Crowd(ghost k: nat) returns (ghost k': nat)
      requires Good() && lruLimit > 0 && k < |lru| && lru[k] == root && HasNumber(View(), 1, root)
      modifies this
      ensures Good() && root == old(root) && lruLimit == old(lruLimit)
      ensures root in inodes ==>
        && k' < |lru| && lru[k'] == root && HasNumber(View(), 1, root)
        && lruLimit - |lru| + k' < old(lruLimit - |lru|) + k
    {
      hide Inv, LinksOk, NumbersOk, NamesOk, NameBucketsOk, ListsOk, Accounts, Tidy, NoDup, Pruned, Shed, Settles;
      hide NamesKept, NumbersKept, HeldBy, RootSafe;
      var i := Newcomer();
      ghost var b := View();
      InvParts(b, held, {});
      ghost var mid, queue := Unref(i);
      InvParts(View(), held, {});
      SettledRoot(b, View());
      k' := CrowdedOut(b, mid, View(), i, queue, k);
    }

    /** Without a reference the root goes once enough newer inodes have come and gone idle, whatever the limit. */
    method EvictRoot()
      requires Good() && HasNumber(View(), 1, root) && inodes[root].ref == 0 && lruLimit > 0
      modifies this
      ensures Good() && root == old(root) && lruLimit == old(lruLimit) && root !in inodes
    {
      hide Inv;
      ghost var k: nat := IdlePlace(View(), held, root);
      while root in inodes
        invariant Good() && root == old(root) && lruLimit == old(lruLimit)
        invariant root in inodes ==> k < |lru| && lru[k] == root && HasNumber(View(), 1, root)
        decreases if root in inodes then lruLimit - |lru| + k + 1 else 0
      {
        k := Crowd(k);
      }
    }
  }

  /** A new table with a limit can lose its root. */
  method LoseRoot(limit: nat) returns (c: InodeCache)
    requires limit > 0
    ensures fresh(c) && c.Good() && c.lruLimit == limit && c.root !in c.inodes
  {
    c := new InodeCache(limit);
    c.EvictRoot();
  }

  /** Linking an inode as number 1 under the root it thereby replaces leaves it under an unhashed directory. */
  method LinkUnderReplaced(limit: nat) returns (c: InodeCache)
    ensures fresh(c) && !c.Good()
  {
    hide Inv, Linked, Settles, Pruned, NamesKept, NumbersKept, HeldBy, RootSafe, PurgedBy;
    c := new InodeCache(limit);
    var root := c.root;
    c.Ref(root);
    var i := c.New();
    ghost var replaced, mid, queue := c.Link(i, Some(root), "x", 1, 0);
  }

  /** Linking an inode under itself makes a directory from which the way up never ends. */
  method LinkUnderItself(limit: nat) returns (c: InodeCache, i: InodePtr)
    ensures fresh(c) && c.Good() && i in c.inodes && forall chain :: !Chain(c.View(), i, chain)
  {
    hide Inv, LinksOk, Settles, Pruned, NamesKept, NumbersKept, HeldBy, RootSafe, PurgedBy, LinkedTo, Binds, Chain;
    hide Cyclic;
    c := new InodeCache(limit);
    ghost var t := c.View();
    InvParts(t, c.held, {});
    i := c.New();
    ghost var a, h := c.View(), c.held;
    ghost var replaced, mid, queue := c.Link(i, Some(i), "x", 2, 0);
    LinkedUnderItself(t, a, mid, i, 2, "x", replaced);
    PurgedNone(a, mid, h, 2);
    InvParts(c.View(), c.held, {});
    OwnDirectory(c.View(), c.held, i, "x");
    PathEnds(c.View(), i);
  }

  /** Writes "/" and a component so that they end before `end`, as the backward fill of `inode_path` does. */
  method PutComponent(buf: array<char>, end: nat, name: string)
    requires |name| + 1 <= end <= buf.Length
    modifies buf
    ensures buf[..] == old(buf[..end - |name| - 1]) + "/" + name + old(buf[end..])
  {
    var at := end - |name|;
    for k := 0 to |name|
      invariant forall j :: 0 <= j < k ==> buf[at + j] == name[j]
      invariant forall j :: 0 <= j < buf.Length && !(at <= j < at + k) ==> buf[j] == old(buf[j])
    {
      buf[at + k] := name[k];
    }
    buf[at - 1] := '/';
  }
}
