/** How linking an inode changes what names and numbers resolve to. */
module Linking {
  import opened Options
  import opened Seqs
  import opened InodeState
  import opened InodeLemmas
  import opened DentryLemmas
  import opened Cascade
  import opened Resolution
  import opened Replacement

  // ---------------------------------------------------------------- replacement as a whole

  /** A dentry under the old inode belongs under the new one. */
  function Moved(e: Dentry, oldi: InodePtr, newi: InodePtr): Dentry {
    if e.parent == oldi then e.(parent := newi) else e
  }

  /** Every dentry stays where it was; those of the old inode are unhashed, new ones are the new inode's. */
  ghost predicate InPlace(t: Table, u: Table, oldi: InodePtr, newi: InodePtr) {
    && (forall d :: d in t.dentries ==>
          && d in u.dentries && u.dentries[d].inode == t.dentries[d].inode
          && SameName(u.dentries[d], Moved(t.dentries[d], oldi, newi))
          && (t.dentries[d].inode == oldi ==> !u.dentries[d].hashed)
          && (t.dentries[d].inode != oldi && t.dentries[d].inode != newi ==>
               u.dentries[d].hashed == t.dentries[d].hashed))
    && (forall c :: c in u.dentries && c !in t.dentries ==> u.dentries[c].inode == newi)
  }

  /** Every dentry of the old inode has a copy on the new one. */
  ghost predicate AllCopied(t: Table, u: Table, oldi: InodePtr, newi: InodePtr) {
    forall d :: d in t.dentries && t.dentries[d].inode == oldi ==> HasCopy(u, newi, Moved(t.dentries[d], oldi, newi))
  }

  /** Every hashed dentry of the new inode is such a copy. */
  ghost predicate AllFromOld(t: Table, u: Table, oldi: InodePtr, newi: InodePtr) {
    forall c :: c in u.dentries && u.dentries[c].inode == newi && u.dentries[c].hashed ==>
      HasOrigin(t, oldi, newi, u.dentries[c])
  }

  /** Every new dentry has the name of one of the old inode. */
  ghost predicate AllDerived(t: Table, u: Table, oldi: InodePtr, newi: InodePtr) {
    forall c :: c in u.dentries && c !in t.dentries ==> FromOld(t, oldi, newi, u.dentries[c])
  }

  ghost predicate FromOld(t: Table, oldi: InodePtr, newi: InodePtr, copy: Dentry) {
    exists d :: d in t.dentries && t.dentries[d].inode == oldi && SameName(Moved(t.dentries[d], oldi, newi), copy)
  }

  ghost predicate Rehomed(t: Table, u: Table, oldi: InodePtr, newi: InodePtr) {
    && InPlace(t, u, oldi, newi) && AllCopied(t, u, oldi, newi)
    && AllFromOld(t, u, oldi, newi) && AllDerived(t, u, oldi, newi)
  }

  ghost predicate HasOrigin(t: Table, oldi: InodePtr, newi: InodePtr, copy: Dentry) {
    exists d :: d in t.dentries && t.dentries[d].inode == oldi && t.dentries[d].hashed
                && SameName(Moved(t.dentries[d], oldi, newi), copy)
  }

  /** Inodes other than the two keep number, lookups, hashing and dentries, and stay in use or idle. */
  ghost predicate Bystanders(t: Table, u: Table, oldi: InodePtr, newi: InodePtr) {
    && u.inodes.Keys == t.inodes.Keys && u.lru == t.lru && u.purge == t.purge && u.lruLimit == t.lruLimit
    && (forall i :: i in t.inodes && i != oldi && i != newi ==>
          SameBut(t.inodes[i], u.inodes[i]) && u.inodes[i].dentryList == t.inodes[i].dentryList)
  }

  /** The new inode has the old one's lookups and the old one is on its way out. */
  ghost predicate HandedOver(t: Table, u: Table, oldi: InodePtr, newi: InodePtr) {
    && oldi in t.inodes && newi in t.inodes && oldi in u.inodes && newi in u.inodes
    && u.inodes[newi].nlookup == t.inodes[oldi].nlookup && u.inodes[newi].generation == t.inodes[oldi].generation
    && u.inodes[newi].ino == t.inodes[newi].ino && u.inodes[newi].mode == t.inodes[newi].mode && !u.inodes[newi].hashed
    && u.inodes[newi].ref > 0
    && u.inodes[oldi].ino == t.inodes[oldi].ino && u.inodes[oldi].nlookup == 0 && !u.inodes[oldi].hashed
    && u.inodes[oldi].childList == []
    && u.root == if t.inodes[newi].ino == 1 then newi else t.root
  }

  ghost predicate Replaced(t: Table, u: Table, oldi: InodePtr, newi: InodePtr) {
    Rehomed(t, u, oldi, newi) && Bystanders(t, u, oldi, newi) && HandedOver(t, u, oldi, newi)
  }

  /** `u` is `w` with the children of the old inode under the new one. */
  ghost predicate MovedAll(w: Table, u: Table, oldi: InodePtr, newi: InodePtr) {
    && u.dentries.Keys == w.dentries.Keys
    && forall d :: d in w.dentries ==> u.dentries[d] == Moved(w.dentries[d], oldi, newi)
  }

  lemma AdoptedInPlace(t: Table, w: Table, u: Table, oldi: InodePtr, newi: InodePtr, done: set<DentryPtr>)
    requires Carried(t, w, newi, done) && MovedAll(w, u, oldi, newi) && oldi != newi
    requires forall d :: d in t.dentries && t.dentries[d].inode == oldi ==> d in done
    requires forall d :: d in done && d in t.dentries ==> t.dentries[d].inode == oldi
    ensures InPlace(t, u, oldi, newi)
  {
  }

  lemma AdoptedCopies(t: Table, w: Table, u: Table, oldi: InodePtr, newi: InodePtr, done: set<DentryPtr>)
    requires HaveCopies(t, w, oldi, newi, done) && MovedAll(w, u, oldi, newi)
    requires forall d :: d in t.dentries && t.dentries[d].inode == oldi ==> d in done
    ensures AllCopied(t, u, oldi, newi)
  {
    forall d | d in t.dentries && t.dentries[d].inode == oldi
      ensures HasCopy(u, newi, Moved(t.dentries[d], oldi, newi))
    {
      var c :| IsCopy(w, c, newi, t.dentries[d]);
      assert IsCopy(u, c, newi, Moved(t.dentries[d], oldi, newi));
    }
  }

  lemma AdoptedOrigins(t: Table, w: Table, u: Table, oldi: InodePtr, newi: InodePtr, done: set<DentryPtr>)
    requires Sourced(t, w, newi, done) && MovedAll(w, u, oldi, newi)
    requires forall d :: d in done && d in t.dentries ==> t.dentries[d].inode == oldi
    ensures AllFromOld(t, u, oldi, newi)
  {
    forall c | c in u.dentries && u.dentries[c].inode == newi && u.dentries[c].hashed
      ensures HasOrigin(t, oldi, newi, u.dentries[c])
    {
      assert HasSource(t, done, w.dentries[c]);
      var d :| d in done && d in t.dentries && t.dentries[d].hashed && SameName(t.dentries[d], w.dentries[c]);
      assert SameName(Moved(t.dentries[d], oldi, newi), u.dentries[c]);
    }
  }

  lemma AdoptedDerived(t: Table, w: Table, u: Table, oldi: InodePtr, newi: InodePtr)
    requires Derived(t, w, oldi) && MovedAll(w, u, oldi, newi)
    ensures AllDerived(t, u, oldi, newi)
  {
    forall c | c in u.dentries && c !in t.dentries ensures FromOld(t, oldi, newi, u.dentries[c]) {
      var d :| d in t.dentries && t.dentries[d].inode == oldi && SameName(t.dentries[d], w.dentries[c]);
      assert SameName(Moved(t.dentries[d], oldi, newi), u.dentries[c]);
    }
  }

  lemma RehomedByAdoption(t: Table, w: Table, u: Table, oldi: InodePtr, newi: InodePtr, done: set<DentryPtr>)
    requires LinksOk(t) && oldi in t.inodes && newi in t.inodes && oldi != newi
    requires CopiedDentries(t, w, oldi, newi, done) && (forall d :: d in done <==> d in t.inodes[oldi].dentryList)
    requires MovedAll(w, u, oldi, newi)
    ensures Rehomed(t, u, oldi, newi)
  {
    hide NoDup, Carried, HaveCopies, Sourced, Derived, MovedAll, InPlace, AllCopied, AllFromOld, AllDerived;
    AdoptedInPlace(t, w, u, oldi, newi, done);
    AdoptedCopies(t, w, u, oldi, newi, done);
    AdoptedOrigins(t, w, u, oldi, newi, done);
    AdoptedDerived(t, w, u, oldi, newi);
  }

  /** After the replacement every inode but the old one is pinned. */
  lemma ReplacedSupported(t: Table, u: Table, held: map<InodePtr, nat>, oldi: InodePtr, newi: InodePtr)
    requires Rehomed(t, u, oldi, newi) && LinksOk(u) && Accounts(u, held) && oldi != newi && newi in u.inodes
    ensures Supported(u, held, u.inodes.Keys - {oldi})
  {
    hide NoDup;
    var keep := u.inodes.Keys - {oldi};
    forall k | k in keep ensures k in u.inodes && k in held && Pinned(u, held, keep, k) {
      if u.inodes[k].ref > 0 && u.inodes[k].ino != 1 && held[k] == 0 {
        PinnedByChild(t, u, held, oldi, newi, k);
      }
    }
  }

  lemma PinnedByChild(t: Table, u: Table, held: map<InodePtr, nat>, oldi: InodePtr, newi: InodePtr, k: InodePtr)
    requires Rehomed(t, u, oldi, newi) && LinksOk(u) && Accounts(u, held) && oldi != newi && newi in u.inodes
    requires k in u.inodes && u.inodes[k].ref > 0 && u.inodes[k].ino != 1 && held[k] == 0
    ensures Pinned(u, held, u.inodes.Keys - {oldi}, k)
  {
    hide NoDup;
    var d := u.inodes[k].childList[0];
    assert d in u.inodes[k].childList;
    if u.dentries[d].inode == oldi {
      assert d in t.dentries;
      var c :| IsCopy(u, c, newi, Moved(t.dentries[d], oldi, newi));
      assert c in u.inodes[k].childList;
    }
  }

  // ---------------------------------------------------------------- resolution

  /** What a name resolved to before, with the replaced inode read as the new one. */
  ghost predicate BindsThrough(t: Table, par: nat, name: string, oldi: Option<InodePtr>, newi: InodePtr, j: InodePtr) {
    && (oldi.Some? ==> j != oldi.value)
    && (Binds(t, par, name, j) || (j == newi && oldi.Some? && Binds(t, par, name, oldi.value)))
  }

  /** `v` follows `u`: only the old inode and its unhashed dentries may be gone. */
  ghost predicate AllButOld(u: Table, v: Table, oldi: InodePtr) {
    && u.inodes.Keys == v.inodes.Keys && FewerDentries(u, v)
    && (forall i :: i in u.inodes ==> v.inodes[i].ino == u.inodes[i].ino)
    && (forall i :: i in u.inodes && i != oldi ==> v.inodes[i].dentryList == u.inodes[i].dentryList)
  }

  lemma TakenNamesDown(t: Table, u: Table, v: Table, oldi: InodePtr, newi: InodePtr, par: nat, name: string,
      c: DentryPtr)
    requires Rehomed(t, u, oldi, newi) && AllButOld(u, v, oldi) && oldi != newi && SameInos(t, u) && LinksOk(t)
    requires oldi in t.inodes && newi in t.inodes && t.inodes[oldi].ino == t.inodes[newi].ino
    requires Names(v, c, par, name)
    ensures BindsThrough(t, par, name, Some(oldi), newi, v.dentries[c].inode)
  {
    hide LinksOk;
    if v.dentries[c].inode == newi {
      assert HasOrigin(t, oldi, newi, u.dentries[c]);
      var d :| d in t.dentries && t.dentries[d].inode == oldi && t.dentries[d].hashed
               && SameName(Moved(t.dentries[d], oldi, newi), u.dentries[c]);
      LinkedDentry(t, d);
      assert Names(t, d, par, name);
    } else {
      assert c in t.dentries;
      LinkedDentry(t, c);
      assert Names(t, c, par, name);
    }
  }

  lemma TakenNamesUp(t: Table, u: Table, v: Table, oldi: InodePtr, newi: InodePtr, par: nat, name: string, d: DentryPtr)
    requires Rehomed(t, u, oldi, newi) && AllButOld(u, v, oldi) && oldi != newi && SameInos(t, u)
    requires LinksOk(u) && LinksOk(v) && newi in t.inodes && oldi in t.inodes
    requires t.inodes[oldi].ino == t.inodes[newi].ino
    requires Names(t, d, par, name) && t.dentries[d].inode != newi
    ensures Binds(v, par, name, if t.dentries[d].inode == oldi then newi else t.dentries[d].inode)
  {
    hide LinksOk;
    if t.dentries[d].inode == oldi {
      assert HasCopy(u, newi, Moved(t.dentries[d], oldi, newi));
      var c :| IsCopy(u, c, newi, Moved(t.dentries[d], oldi, newi));
      LinkedDentry(u, c);
      ListedDentry(v, newi, c);
      assert Names(v, c, par, name);
    } else {
      LinkedDentry(u, d);
      ListedDentry(v, t.dentries[d].inode, d);
      assert Names(v, d, par, name);
    }
  }

  /** A replacement changes the resolution of no name but for reading the old inode as the new one. */
  lemma TakenNames(t: Table, u: Table, v: Table, oldi: InodePtr, newi: InodePtr, par: nat, name: string, j: InodePtr)
    requires Rehomed(t, u, oldi, newi) && AllButOld(u, v, oldi) && oldi != newi && SameInos(t, u)
    requires LinksOk(t) && LinksOk(u) && LinksOk(v) && Tidy(t, {})
    requires oldi in t.inodes && newi in t.inodes && t.inodes[oldi].ino == t.inodes[newi].ino && !t.inodes[newi].hashed
    ensures Binds(v, par, name, j) <==> BindsThrough(t, par, name, Some(oldi), newi, j)
  {
    hide LinksOk, Rehomed, AllButOld, SameInos;
    if Binds(v, par, name, j) {
      var c :| Names(v, c, par, name) && v.dentries[c].inode == j;
      TakenNamesDown(t, u, v, oldi, newi, par, name, c);
    }
    if BindsThrough(t, par, name, Some(oldi), newi, j) {
      var y := if Binds(t, par, name, j) then j else oldi;
      var d :| Names(t, d, par, name) && t.dentries[d].inode == y;
      TakenNamesUp(t, u, v, oldi, newi, par, name, d);
    }
  }

  /** Inode `i` has a dentry, hashed or not, for `name` in directory number `par`. */
  ghost predicate HasDentry(t: Table, i: InodePtr, par: nat, name: string) {
    exists d :: Under(t, d, par, name) && t.dentries[d].inode == i
  }

  predicate Under(t: Table, d: DentryPtr, par: nat, name: string) {
    && d in t.dentries && t.dentries[d].name == name
    && t.dentries[d].parent in t.inodes && t.inodes[t.dentries[d].parent].ino == par
  }

  /** The new inode has the dentries of both. */
  ghost predicate DentriesJoin(t: Table, v: Table, oldi: InodePtr, newi: InodePtr) {
    forall par, name :: HasDentry(v, newi, par, name) <==>
      HasDentry(t, newi, par, name) || HasDentry(t, oldi, par, name)
  }

  lemma TakenDentries(t: Table, u: Table, v: Table, oldi: InodePtr, newi: InodePtr)
    requires Rehomed(t, u, oldi, newi) && AllButOld(u, v, oldi) && oldi != newi && SameInos(t, u)
    requires LinksOk(t) && LinksOk(u) && LinksOk(v)
    requires oldi in t.inodes && newi in t.inodes && t.inodes[oldi].ino == t.inodes[newi].ino
    ensures DentriesJoin(t, v, oldi, newi)
  {
    hide LinksOk, HasDentry, Rehomed, AllButOld, SameInos;
    forall par, name
      ensures HasDentry(v, newi, par, name) <==> HasDentry(t, newi, par, name) || HasDentry(t, oldi, par, name)
    {
      TakenDentriesDown(t, u, v, oldi, newi, par, name);
      TakenDentriesUp(t, u, v, oldi, newi, par, name);
    }
  }

  lemma TakenDentriesDown(t: Table, u: Table, v: Table, oldi: InodePtr, newi: InodePtr, par: nat, name: string)
    requires Rehomed(t, u, oldi, newi) && AllButOld(u, v, oldi) && SameInos(t, u) && LinksOk(t)
    requires oldi in t.inodes && newi in t.inodes && t.inodes[oldi].ino == t.inodes[newi].ino
    ensures HasDentry(v, newi, par, name) ==> HasDentry(t, newi, par, name) || HasDentry(t, oldi, par, name)
  {
    hide LinksOk, AllFromOld, AllCopied;
    if HasDentry(v, newi, par, name) {
      var c :| Under(v, c, par, name) && v.dentries[c].inode == newi;
      if c in t.dentries {
        LinkedDentry(t, c);
        assert Under(t, c, par, name);
      } else {
        var d :| d in t.dentries && t.dentries[d].inode == oldi
          && SameName(Moved(t.dentries[d], oldi, newi), u.dentries[c]);
        LinkedDentry(t, d);
        assert Under(t, d, par, name);
      }
    }
  }

  lemma TakenDentriesUp(t: Table, u: Table, v: Table, oldi: InodePtr, newi: InodePtr, par: nat, name: string)
    requires Rehomed(t, u, oldi, newi) && AllButOld(u, v, oldi) && oldi != newi && SameInos(t, u)
    requires LinksOk(u) && LinksOk(v) && newi in t.inodes && oldi in t.inodes
    requires t.inodes[oldi].ino == t.inodes[newi].ino
    ensures HasDentry(t, newi, par, name) || HasDentry(t, oldi, par, name) ==> HasDentry(v, newi, par, name)
  {
    hide LinksOk, AllFromOld, AllDerived;
    if HasDentry(t, newi, par, name) {
      var d :| Under(t, d, par, name) && t.dentries[d].inode == newi;
      LinkedDentry(u, d);
      ListedDentry(v, newi, d);
      assert Under(v, d, par, name);
    }
    if HasDentry(t, oldi, par, name) {
      var d :| Under(t, d, par, name) && t.dentries[d].inode == oldi;
      assert HasCopy(u, newi, Moved(t.dentries[d], oldi, newi));
      var c :| IsCopy(u, c, newi, Moved(t.dentries[d], oldi, newi));
      LinkedDentry(u, c);
      ListedDentry(v, newi, c);
      assert Under(v, c, par, name);
    }
  }

  // ---------------------------------------------------------------- one name

  /** `u` is `t` with the hashed dentry `o`, if any, unhashed and dentry `d` hashed. */
  ghost predicate Named(t: Table, u: Table, o: Option<DentryPtr>, d: DentryPtr) {
    && SameInos(t, u) && d in t.dentries && u.dentries.Keys == t.dentries.Keys
    && (forall e :: e in t.dentries ==>
          u.dentries[e] == t.dentries[e].(hashed := e == d || (t.dentries[e].hashed && o != Some(e))))
  }

  /** Hashing a dentry under a freed name makes that name resolve to its inode and changes no other. */
  lemma NamedBinds(t: Table, u: Table, o: Option<DentryPtr>, d: DentryPtr, par: nat, name: string, q: nat, n: string,
      j: InodePtr)
    requires Named(t, u, o, d) && t.dentries[d].parent in t.inodes
    requires t.inodes[t.dentries[d].parent].ino == par && t.dentries[d].name == name
    requires forall e: DentryPtr :: Names(t, e, par, name) ==> o == Some(e)
    requires o.Some? ==> Names(t, o.value, par, name)
    ensures Binds(u, q, n, j) <==> if q == par && n == name then j == t.dentries[d].inode else Binds(t, q, n, j)
  {
    assert Names(u, d, par, name);
    if q == par && n == name {
      if Binds(u, q, n, j) {
        var e :| Names(u, e, q, n) && u.dentries[e].inode == j;
        if e != d { assert Names(t, e, par, name); }
      }
    } else {
      if Binds(u, q, n, j) {
        var e :| Names(u, e, q, n) && u.dentries[e].inode == j;
        assert Names(t, e, q, n);
      }
      if Binds(t, q, n, j) {
        var e :| Names(t, e, q, n) && t.dentries[e].inode == j;
        assert Names(u, e, q, n);
      }
    }
  }

  // ---------------------------------------------------------------- facts the methods draw on

  lemma RefPurge(t: Table, held: map<InodePtr, nat>, ex: set<InodePtr>, p: InodePtr)
    requires Inv(t, held, ex) && p in t.inodes && p !in t.purge
    ensures RefStep(t, p).purge == t.purge && RefStep(t, p).inodes.Keys == t.inodes.Keys
    ensures RefStep(t, p).dentries == t.dentries
    ensures RefStep(t, p).inodes[p].hashed == t.inodes[p].hashed
  {
    hide Remove;
  }

  lemma NoDentryFrame(t: Table, u: Table, i: InodePtr, p: InodePtr, name: string)
    requires NoDentry(t, i, p, name) && t.dentries == u.dentries
    ensures NoDentry(u, i, p, name)
  {
  }

  lemma InvParts(t: Table, held: map<InodePtr, nat>, ex: set<InodePtr>)
    requires Inv(t, held, ex)
    ensures LinksOk(t) && NumbersOk(t) && NamesOk(t, ex) && NameBucketsOk(t) && ListsOk(t) && Accounts(t, held)
    ensures Tidy(t, ex)
    ensures |t.inodeHash| == HASHSIZE && |t.nameHash| == HASHSIZE && held.Keys == t.inodes.Keys
  {
    hide LinksOk, NamesOk, ListsOk, Tidy, NoDup;
  }

  lemma ExemptMore(t: Table, held: map<InodePtr, nat>, i: InodePtr)
    requires Inv(t, held, {})
    ensures Inv(t, held, {i})
  {
    hide LinksOk, NumbersOk, NameBucketsOk, ListsOk, Accounts;
  }

  /** The two inodes of a replacement: both in use, the new one without children. */
  ghost predicate CopyReady(t: Table, oldi: InodePtr, newi: InodePtr) {
    && oldi in t.inodes && newi in t.inodes && oldi != newi
    && t.inodes[oldi].ref > 0 && t.inodes[newi].ref > 0 && t.inodes[newi].childList == []
  }

  lemma ListedDentries(t: Table, i: InodePtr)
    requires LinksOk(t) && i in t.inodes
    ensures NoDup(t.inodes[i].dentryList)
    ensures forall d :: d in t.inodes[i].dentryList ==> d in t.dentries && t.dentries[d].inode == i
    ensures forall d :: d in t.dentries && t.dentries[d].inode == i ==> d in t.inodes[i].dentryList
  {
    hide NoDup;
  }

  lemma NoDupFirst<T>(s: seq<T>, k: nat)
    requires NoDup(s) && k < |s|
    ensures s[k] !in s[..k]
  {
    NoDupIndices(s);
  }

  lemma CopyFacts(w: Table, held: map<InodePtr, nat>, oldi: InodePtr, newi: InodePtr, t: Table, done: set<DentryPtr>,
      d: DentryPtr)
    requires Inv(w, held, {newi}) && Copied(t, w, oldi, newi, done) && CopyReady(w, oldi, newi)
    requires d in t.dentries && t.dentries[d].inode == oldi && d !in done
    ensures LinksOk(w) && d in w.dentries && w.dentries[d].inode == oldi && |w.nameHash| == HASHSIZE
    ensures w.dentries[d].hashed == t.dentries[d].hashed && SameName(w.dentries[d], t.dentries[d])
    ensures HasPattern(t, oldi, Dentry(newi, w.dentries[d].parent, w.dentries[d].name, false))
    ensures var p := w.dentries[d].parent;
      p in w.inodes && p in held && w.inodes[p].ref > 0 && p != newi && w.inodes[p].hashed && p !in w.purge
    ensures newi !in w.purge
  {
    hide NoDup, NumbersOk, HasCopy, HasSource;
    assert w.inodes[w.dentries[d].parent].childList != [];
    assert SameName(t.dentries[d], Dentry(newi, w.dentries[d].parent, w.dentries[d].name, false));
  }

  lemma CopyMissing(w: Table, held: map<InodePtr, nat>, newi: InodePtr, p: InodePtr, name: string)
    requires LinksOk(w) && newi in w.inodes && p in w.inodes
    requires forall e :: e in w.inodes[newi].dentryList ==>
      e in w.dentries && w.dentries[e].parent in w.inodes
      && (w.inodes[w.dentries[e].parent].ino != w.inodes[p].ino || w.dentries[e].name != name)
    ensures NoDentry(w, newi, p, name)
  {
    hide NoDup;
  }

  lemma CopyFound(w: Table, held: map<InodePtr, nat>, newi: InodePtr, c: DentryPtr, d: DentryPtr)
    requires Inv(w, held, {newi}) && newi in w.inodes && w.inodes[newi].childList == []
    requires c in w.inodes[newi].dentryList && c in w.dentries && w.dentries[c].parent in w.inodes
    requires d in w.dentries && w.dentries[d].parent in w.inodes && w.dentries[d].name == w.dentries[c].name
    requires w.inodes[w.dentries[c].parent].ino == w.inodes[w.dentries[d].parent].ino
    ensures w.dentries[c].inode == newi && SameName(w.dentries[c], w.dentries[d])
  {
    hide NoDup, NameBucketsOk, ListsOk, Accounts;
    assert SameNumber(w.inodes[w.dentries[c].parent], w.inodes[w.dentries[d].parent]);
  }

  lemma CopyCreated(t: Table, w: Table, held: map<InodePtr, nat>, oldi: InodePtr, newi: InodePtr, done: set<DentryPtr>,
      c: DentryPtr, p: InodePtr, name: string)
    requires Copied(t, w, oldi, newi, done) && CopyReady(w, oldi, newi)
    requires p in w.inodes && w.inodes[p].ref > 0 && p != newi && c !in w.dentries
    requires HasPattern(t, oldi, Dentry(newi, p, name, false))
    ensures var u := Attach(RefStep(w, p), c, newi, p, name);
      && Copied(t, u, oldi, newi, done) && CopyReady(u, oldi, newi)
      && u.dentries == w.dentries[c := Dentry(newi, p, name, false)]
  {
    hide CopiedDentries, CopyFrame, HasPattern;
    CopyCreateFrame(t, w, newi, c, p, name);
    CopyCreateDentries(t, w, oldi, newi, done, c, p, name, Attach(RefStep(w, p), c, newi, p, name));
  }

  /** Once the copy `c` of `d` exists, moving the hashing over finishes `d`. */
  lemma CopyStep(t: Table, m: Table, held: map<InodePtr, nat>, oldi: InodePtr, newi: InodePtr, done: set<DentryPtr>,
      d: DentryPtr, c: DentryPtr)
    requires Inv(m, held, {newi}) && Copied(t, m, oldi, newi, done) && CopyReady(m, oldi, newi) && NamesOk(t, {})
    requires d in t.dentries && t.dentries[d].inode == oldi && d !in done
    requires c in m.dentries && m.dentries[c].inode == newi && SameName(m.dentries[c], t.dentries[d])
    requires d in m.dentries && m.dentries[d].parent in m.inodes && m.dentries[c].parent in m.inodes
    requires |m.nameHash| == HASHSIZE
    ensures !m.dentries[d].hashed ==> Copied(t, m, oldi, newi, done + {d})
    ensures m.dentries[d].hashed ==> var u := HandOver(m, d, c);
      Copied(t, u, oldi, newi, done + {d}) && CopyReady(u, oldi, newi) && Inv(u, held, {newi})
  {
    hide Inv, LinksOk, NumbersOk, NamesOk, NameBucketsOk, ListsOk, Accounts, Tidy, CopyFrame, Carried, HaveCopies;
    hide Sourced, Derived;
    hide Remove, HashName, HandOver;
    InvParts(m, held, {newi});
    CopyFacts(m, held, oldi, newi, t, done, d);
    LinkedDentry(m, c);
    DoneDistinct(t, oldi, newi, m, done, d);
    DoneOld(t, m, oldi, newi, done);
    CopyUnhashed(t, m, oldi, newi, done, d, c);
    if m.dentries[d].hashed {
      CopyHashedFrame(t, m, newi, d, c);
      var u := HandOver(m, d, c);
      CopyHashedDentries(t, m, oldi, newi, done, d, c, u);
      CopyHashedInv(m, held, oldi, newi, d, c);
    } else {
      CopyPlain(t, m, oldi, newi, done, d, c);
    }
  }

  lemma CopyHashedInv(m: Table, held: map<InodePtr, nat>, oldi: InodePtr, newi: InodePtr, d: DentryPtr, c: DentryPtr)
    requires Inv(m, held, {newi}) && CopyReady(m, oldi, newi) && |m.nameHash| == HASHSIZE
    requires d in m.dentries && m.dentries[d].inode == oldi && m.dentries[d].hashed && m.dentries[d].parent in m.inodes
    requires c in m.dentries && m.dentries[c].inode == newi && SameName(m.dentries[c], m.dentries[d])
    ensures var u := HandOver(m, d, c); Inv(u, held, {newi}) && CopyReady(u, oldi, newi)
  {
    hide LinksOk, NumbersOk, NamesOk, NameBucketsOk, ListsOk, Accounts, Tidy, Remove, HashName;
    var w := DentryUnhash(m, d);
    DentryUnhashKeeps(m, held, {newi}, d);
    LinkedDentry(m, c);
    FreedName(m, {newi}, d, c);
    DentryHashKeeps(w, held, {newi}, c);
  }

  lemma FreedName(m: Table, ex: set<InodePtr>, d: DentryPtr, c: DentryPtr)
    requires NamesOk(m, ex) && d in m.dentries && m.dentries[d].hashed && c in m.dentries && c != d
    requires SameName(m.dentries[c], m.dentries[d]) && |m.nameHash| == HASHSIZE
    requires m.dentries[c].inode in m.inodes && m.dentries[c].inode in ex
    ensures NameFree(DentryUnhash(m, d), ex, c)
  {
    hide Remove, HashName;
    forall e | e in m.dentries && e != d ensures !(m.dentries[e].hashed && SameName(m.dentries[e], m.dentries[d])) {
      assert !Clash(m.dentries[e], m.dentries[d]);
    }
  }

  // ---------------------------------------------------------------- the steps of a replacement

  lemma CopiedAccounts(t: Table, w: Table, held: map<InodePtr, nat>, oldi: InodePtr, newi: InodePtr)
    requires oldi in t.inodes && newi in t.inodes && t.inodes[oldi].ino == t.inodes[newi].ino
    requires Copied(t, w, oldi, newi, ToSet(t.inodes[oldi].dentryList)) && CopyReady(w, oldi, newi)
    requires Accounts(w, held) && LinksOk(w) && held[oldi] > 0 && held[newi] > 0
    ensures AdoptReady(w, held, oldi, newi) && NoDup(w.inodes[oldi].childList)
    ensures forall d :: d in w.inodes[oldi].childList ==> d in w.dentries && w.dentries[d].parent == oldi
  {
    hide NoDup, CopiedDentries, ToSet;
  }

  /** The two inodes after the children have moved. */
  lemma AdoptedPair(w: Table, held: map<InodePtr, nat>, oldi: InodePtr, newi: InodePtr)
    requires AdoptReady(w, held, oldi, newi)
    ensures var a := Adopt(w, oldi, newi);
      && a.inodes.Keys == w.inodes.Keys && a == w.(inodes := a.inodes, dentries := a.dentries)
      && (forall i :: i in w.inodes && i != oldi && i != newi ==> a.inodes[i] == w.inodes[i])
      && a.inodes[newi] == w.inodes[newi].(ref := a.inodes[newi].ref, childList := a.inodes[newi].childList)
      && a.inodes[newi].ref >= w.inodes[newi].ref
      && a.inodes[oldi] == w.inodes[oldi].(ref := a.inodes[oldi].ref, childList := [])
      && a.inodes[oldi].ref > 0
  {
    hide Reparented;
  }

  lemma OldEmptied(t: Table, w: Table, held: map<InodePtr, nat>, oldi: InodePtr, newi: InodePtr)
    requires LinksOk(t) && oldi in t.inodes && oldi != newi
    requires Copied(t, w, oldi, newi, ToSet(t.inodes[oldi].dentryList)) && AdoptReady(w, held, oldi, newi)
    ensures Emptied(Adopt(w, oldi, newi), oldi)
  {
    hide NoDup, HasCopy, HasSource;
    var a := Adopt(w, oldi, newi);
    forall d | d in a.dentries && a.dentries[d].inode == oldi ensures !a.dentries[d].hashed {
      assert d in w.dentries && w.dentries[d].inode == oldi;
      assert d in t.dentries && d in t.inodes[oldi].dentryList;
      assert d in ToSet(t.inodes[oldi].dentryList);
    }
  }

  /** Lookups, generation and the root pointer pass from `oldi` to `newi`. */
  function PassLookups(a: Table, oldi: InodePtr, newi: InodePtr): Table
    requires oldi in a.inodes && newi in a.inodes && oldi != newi
  {
    var o := a.inodes[oldi];
    a.(inodes := a.inodes[newi := a.inodes[newi].(nlookup := o.nlookup, generation := o.generation)]
                         [oldi := o.(nlookup := 0, generation := 0)],
       root := if a.inodes[newi].ino == 1 then newi else a.root)
  }

  function PassOn(a: Table, oldi: InodePtr, newi: InodePtr): Table
    requires oldi in a.inodes && newi in a.inodes && oldi != newi && |a.inodeHash| == HASHSIZE
  {
    InodeUnhash(PassLookups(a, oldi, newi), oldi)
  }

  lemma PassOnKeeps(a: Table, held: map<InodePtr, nat>, oldi: InodePtr, newi: InodePtr)
    requires oldi in a.inodes && newi in a.inodes && oldi != newi && |a.inodeHash| == HASHSIZE
    requires Inv(a, held, {newi}) && Emptied(a, oldi)
    ensures Inv(PassOn(a, oldi, newi), held, {newi})
  {
    hide Inv, InodeUnhash;
    InvFrame(a, PassLookups(a, oldi, newi), held, {newi});
    UnhashOldKeeps(PassLookups(a, oldi, newi), held, oldi, newi);
  }

  lemma ReplacedWhole(t: Table, w: Table, held: map<InodePtr, nat>, oldi: InodePtr, newi: InodePtr)
    requires LinksOk(t) && LinksOk(w) && oldi in t.inodes && newi in t.inodes && oldi != newi && !t.inodes[newi].hashed
    requires Copied(t, w, oldi, newi, ToSet(t.inodes[oldi].dentryList)) && AdoptReady(w, held, oldi, newi)
    requires w.inodes[newi].ref > 0 && |w.inodeHash| == HASHSIZE
    ensures Replaced(t, PassOn(Adopt(w, oldi, newi), oldi, newi), oldi, newi)
  {
    hide LinksOk, CopiedDentries, Rehomed, Remove, HashInode, NoDup, Adopt, PassOn, Bystanders, HandedOver, ToSet;
    hide MovedAll;
    var a := Adopt(w, oldi, newi);
    AdoptedPair(w, held, oldi, newi);
    PassedOn(a, oldi, newi);
    var c := PassOn(a, oldi, newi);
    MovedByAdoption(w, held, c, oldi, newi);
    ToSetListed(t, oldi);
    RehomedByAdoption(t, w, c, oldi, newi, ToSet(t.inodes[oldi].dentryList));
    BystandersKept(t, w, c, oldi, newi);
    HandedOverDone(t, w, a, c, oldi, newi);
  }

  lemma ToSetListed(t: Table, oldi: InodePtr)
    requires oldi in t.inodes
    ensures forall d :: d in ToSet(t.inodes[oldi].dentryList) <==> d in t.inodes[oldi].dentryList
  {
  }

  lemma PassedOn(a: Table, oldi: InodePtr, newi: InodePtr)
    requires oldi in a.inodes && newi in a.inodes && oldi != newi && |a.inodeHash| == HASHSIZE
    ensures var c := PassOn(a, oldi, newi);
      && c == a.(inodes := c.inodes, inodeHash := c.inodeHash, root := if a.inodes[newi].ino == 1 then newi else a.root)
      && c.inodes.Keys == a.inodes.Keys
      && c.inodes[newi] == a.inodes[newi].(nlookup := a.inodes[oldi].nlookup, generation := a.inodes[oldi].generation)
      && c.inodes[oldi] == a.inodes[oldi].(nlookup := 0, generation := 0, hashed := false)
      && (forall i :: i in a.inodes && i != oldi && i != newi ==> c.inodes[i] == a.inodes[i])
  {
    hide Remove, HashInode;
  }

  lemma BystandersKept(t: Table, w: Table, c: Table, oldi: InodePtr, newi: InodePtr)
    requires CopyFrame(t, w, newi) && c.inodes.Keys == w.inodes.Keys
    requires c.lru == w.lru && c.purge == w.purge && c.lruLimit == w.lruLimit
    requires forall i :: i in w.inodes && i != oldi && i != newi ==> c.inodes[i] == w.inodes[i]
    ensures Bystanders(t, c, oldi, newi)
  {
  }

  lemma HandedOverDone(t: Table, w: Table, a: Table, c: Table, oldi: InodePtr, newi: InodePtr)
    requires CopyFrame(t, w, newi) && oldi in t.inodes && newi in t.inodes && oldi != newi && !t.inodes[newi].hashed
    requires w.inodes[newi].ref > 0 && oldi in a.inodes && newi in a.inodes && oldi in c.inodes && newi in c.inodes
    requires a.inodes[newi] == w.inodes[newi].(ref := a.inodes[newi].ref, childList := a.inodes[newi].childList)
    requires a.inodes[newi].ref >= w.inodes[newi].ref && a.root == w.root
    requires a.inodes[oldi] == w.inodes[oldi].(ref := a.inodes[oldi].ref, childList := [])
    requires c.inodes[newi] ==
      a.inodes[newi].(nlookup := a.inodes[oldi].nlookup, generation := a.inodes[oldi].generation)
    requires c.inodes[oldi] == a.inodes[oldi].(nlookup := 0, generation := 0, hashed := false)
    requires c.root == if a.inodes[newi].ino == 1 then newi else a.root
    ensures HandedOver(t, c, oldi, newi)
  {
  }

  lemma MovedByAdoption(w: Table, held: map<InodePtr, nat>, c: Table, oldi: InodePtr, newi: InodePtr)
    requires LinksOk(w) && AdoptReady(w, held, oldi, newi) && c.dentries == Adopt(w, oldi, newi).dentries
    ensures MovedAll(w, c, oldi, newi)
  {
    hide NoDup;
  }

  // ---------------------------------------------------------------- the replacement as a caller sees it

  /** Inodes outside the pair keep everything but reference counts and children. */
  ghost predicate OthersSame(t: Table, v: Table, pair: set<InodePtr>) {
    && v.inodes.Keys == t.inodes.Keys
    && (forall i :: i in t.inodes && i !in pair ==> SameRecord(t.inodes[i], v.inodes[i]))
  }

  predicate SameRecord(a: Inode, b: Inode) {
    && b.ino == a.ino && b.mode == a.mode && b.nlookup == a.nlookup && b.generation == a.generation
    && b.hashed == a.hashed && b.dentryList == a.dentryList && (a.ref > 0 <==> b.ref > 0)
  }

  /** Every child of the old inode is now a child of the new one. */
  ghost predicate ChildrenMoved(t: Table, v: Table, oldi: InodePtr, newi: InodePtr) {
    forall d :: d in t.dentries && t.dentries[d].inode != oldi ==>
      d in v.dentries && v.dentries[d].parent == (if t.dentries[d].parent == oldi then newi else t.dentries[d].parent)
  }

  ghost predicate NamesThrough(t: Table, v: Table, oldi: Option<InodePtr>, newi: InodePtr) {
    forall par, name, j :: Binds(v, par, name, j) <==> BindsThrough(t, par, name, oldi, newi, j)
  }

  ghost predicate Taken(t: Table, v: Table, oldi: InodePtr, newi: InodePtr) {
    && OthersSame(t, v, {oldi, newi}) && ChildrenMoved(t, v, oldi, newi) && NamesThrough(t, v, Some(oldi), newi)
    && oldi in v.inodes && newi in v.inodes && oldi in t.inodes && newi in t.inodes
    && !v.inodes[oldi].hashed && v.inodes[oldi].ino == t.inodes[oldi].ino
    && v.inodes[newi].nlookup == t.inodes[oldi].nlookup && v.inodes[newi].generation == t.inodes[oldi].generation
    && v.inodes[newi].ino == t.inodes[newi].ino && v.inodes[newi].mode == t.inodes[newi].mode && v.inodes[newi].ref > 0
    && v.root == (if t.inodes[newi].ino == 1 then newi else t.root) && v.lruLimit == t.lruLimit
    && DentriesJoin(t, v, oldi, newi) && v.lru == Remove(t.lru, oldi)
    && (t.inodes[oldi].ino == 1 ==> v.inodes[oldi].ref > 0)
  }

  lemma RefLru(t: Table, i: InodePtr)
    requires ListsOk(t) && i in t.inodes
    ensures RefStep(t, i).lru == Remove(t.lru, i)
  {
    hide NoDup, Remove;
    assert t.inodes[i].ref > 0 ==> i !in t.lru;
  }

  /** Where all other inodes are spared, releasing an unhashed one leaves the lru list alone. */
  lemma NoneIdle(u: Table, v: Table, oldi: InodePtr)
    requires Fades(u, v, {}) && Spares(u, v, u.inodes.Keys - {oldi}) && ListsOk(u) && ListsOk(v)
    requires oldi in u.inodes && !u.inodes[oldi].hashed
    ensures v.lru == u.lru
  {
    FadesShed(u, v);
    hide NoDup, Fades;
    var more := v.lru[|u.lru|..];
    assert v.lru == u.lru + more;
    forall k ensures k !in more {
      if k in more { assert false; }
    }
    NoElements(more);
  }

  /** The lru list has lost the old inode, if it was on it; a replaced number 1 keeps its reference for good. */
  lemma TakenLists(t: Table, r: Table, u: Table, v: Table, oldi: InodePtr, newi: InodePtr)
    requires oldi in t.inodes && r == RefStep(t, oldi) && ListsOk(t) && ListsOk(u) && ListsOk(v)
    requires Replaced(r, u, oldi, newi) && u.inodes[oldi].ref > 0
    requires Fades(u, v, {}) && Spares(u, v, u.inodes.Keys - {oldi})
    ensures oldi in v.inodes && v.lru == Remove(t.lru, oldi) && (t.inodes[oldi].ino == 1 ==> v.inodes[oldi].ref > 0)
  {
    hide NoDup, Remove, Rehomed, HashedOnly, Fades, Spares, ListsOk;
    RefLru(t, oldi);
    RefEffect(t, oldi);
    NoneIdle(u, v, oldi);
    FadesAt(u, v, oldi);
  }

  /** An unhashed inode is purged or in use; which one its number and its callers decide. */
  lemma OldEnds(t: Table, held: map<InodePtr, nat>, ex: set<InodePtr>, o: InodePtr)
    requires Inv(t, held, ex) && o in t.inodes && !t.inodes[o].hashed && o !in ex
    requires t.inodes[o].ino == 1 ==> t.inodes[o].ref > 0
    ensures o in held && (o in t.purge <==> t.inodes[o].ino != 1 && held[o] == 0) && (o in t.active <==> o !in t.purge)
  {
    hide NoDup, NumbersOk, NameBucketsOk;
    if t.inodes[o].childList != [] { ParentHashed(t, ex, o); }
  }

  lemma TakeOverReady(t: Table, held: map<InodePtr, nat>, oldi: InodePtr, newi: InodePtr)
    requires Inv(t, held, {}) && oldi in t.inodes && newi in t.inodes && t.inodes[oldi].hashed && !t.inodes[newi].hashed
    requires newi in held && held[newi] > 0
    ensures oldi !in t.purge && t.inodes[newi].ref > 0 && t.inodes[newi].childList == [] && oldi in held
  {
    hide NoDup, NumbersOk, NameBucketsOk;
    if t.inodes[newi].childList != [] {
      ParentHashed(t, {}, newi);
    }
  }

  lemma ParentHashed(t: Table, ex: set<InodePtr>, i: InodePtr)
    requires LinksOk(t) && NamesOk(t, ex) && i in t.inodes && i !in ex && t.inodes[i].childList != []
    ensures t.inodes[i].hashed
  {
    hide NoDup;
    assert t.inodes[i].childList[0] in t.inodes[i].childList;
  }

  lemma RefEffect(t: Table, i: InodePtr)
    requires i in t.inodes
    ensures var r := RefStep(t, i);
      && r.inodes == t.inodes[i := t.inodes[i].(ref := t.inodes[i].ref + 1)] && r.dentries == t.dentries
      && r.root == t.root && r.lruLimit == t.lruLimit
  {
    hide Remove;
  }

  lemma ReplacedRelease(r: Table, u: Table, held: map<InodePtr, nat>, oldi: InodePtr, newi: InodePtr)
    requires Replaced(r, u, oldi, newi) && LinksOk(u) && Accounts(u, held) && oldi != newi && held[oldi] > 0
    ensures oldi in u.inodes && newi in u.inodes && u.inodes[oldi].ref > 0
    ensures Supported(u, held[oldi := held[oldi] - 1], u.inodes.Keys - {oldi})
  {
    hide LinksOk, Supported, Rehomed, Bystanders;
    HeldParent(u, held, oldi);
    ReplacedSupported(r, u, held, oldi, newi);
    SupportedLess(u, held, oldi);
  }

  lemma SupportedLess(u: Table, held: map<InodePtr, nat>, i: InodePtr)
    requires i in held && held[i] > 0 && Supported(u, held, u.inodes.Keys - {i})
    ensures Supported(u, held[i := held[i] - 1], u.inodes.Keys - {i})
  {
  }

  lemma ReleasedOld(u: Table, v: Table, oldi: InodePtr, newi: InodePtr)
    requires Fades(u, v, {}) && Spares(u, v, u.inodes.Keys - {oldi}) && oldi in u.inodes && newi in u.inodes
    requires oldi != newi
    requires !u.inodes[oldi].hashed && u.inodes[newi].ref > 0
    ensures AllButOld(u, v, oldi) && OthersSame(u, v, {oldi}) && !v.inodes[oldi].hashed
    ensures v.inodes[newi].ref > 0 && v.root == u.root && v.lruLimit == u.lruLimit
  {
    hide HashedOnly;
    forall i | i in u.inodes && i != oldi ensures SameRecord(u.inodes[i], v.inodes[i]) {
      assert i in u.inodes.Keys - {oldi};
      assert InodeFades(u.inodes[i], v.inodes[i], HashedOnly(u.dentries, u.inodes[i].dentryList), false);
    }
  }

  lemma TakenChildren(t: Table, u: Table, v: Table, oldi: InodePtr, newi: InodePtr)
    requires InPlace(t, u, oldi, newi) && AllButOld(u, v, oldi) && LinksOk(u) && LinksOk(v)
    ensures ChildrenMoved(t, v, oldi, newi)
  {
    hide LinksOk;
    forall d | d in t.dentries && t.dentries[d].inode != oldi
      ensures d in v.dentries
      ensures v.dentries[d].parent == (if t.dentries[d].parent == oldi then newi else t.dentries[d].parent)
    {
      LinkedDentry(u, d);
      ListedDentry(v, u.dentries[d].inode, d);
    }
  }

  lemma TakenBinds(t: Table, u: Table, v: Table, oldi: InodePtr, newi: InodePtr)
    requires Rehomed(t, u, oldi, newi) && AllButOld(u, v, oldi) && oldi != newi && SameInos(t, u)
    requires LinksOk(t) && LinksOk(u) && LinksOk(v) && Tidy(t, {})
    requires oldi in t.inodes && newi in t.inodes && t.inodes[oldi].ino == t.inodes[newi].ino && !t.inodes[newi].hashed
    ensures NamesThrough(t, v, Some(oldi), newi)
  {
    hide LinksOk, Rehomed, AllButOld, SameInos, Tidy, Binds, BindsThrough;
    forall par, name, j ensures Binds(v, par, name, j) <==> BindsThrough(t, par, name, Some(oldi), newi, j) {
      TakenNames(t, u, v, oldi, newi, par, name, j);
    }
  }

  lemma TakenWhole(t: Table, r: Table, u: Table, v: Table, held: map<InodePtr, nat>, oldi: InodePtr, newi: InodePtr)
    requires oldi in t.inodes && newi in t.inodes && oldi != newi && !t.inodes[newi].hashed
    requires t.inodes[oldi].ino == t.inodes[newi].ino && t.inodes[oldi].ref >= 0
    requires r.inodes == t.inodes[oldi := t.inodes[oldi].(ref := t.inodes[oldi].ref + 1)] && r.dentries == t.dentries
    requires r.root == t.root && r.lruLimit == t.lruLimit
    requires Replaced(r, u, oldi, newi) && LinksOk(r) && LinksOk(u) && LinksOk(v) && Tidy(r, {})
    requires Fades(u, v, {}) && Spares(u, v, u.inodes.Keys - {oldi})
    requires v.lru == Remove(t.lru, oldi) && (t.inodes[oldi].ino == 1 ==> v.inodes[oldi].ref > 0)
    ensures Taken(t, v, oldi, newi)
  {
    hide LinksOk, Tidy, Fades, Spares, Rehomed, AllButOld, InPlace, Bystanders, OthersSame, NamesThrough;
    hide ChildrenMoved, SameInos;
    hide Remove, DentriesJoin;
    ReleasedOld(u, v, oldi, newi);
    ReplacedInos(r, u, oldi, newi);
    TakenBinds(r, u, v, oldi, newi);
    RehomedInPlace(r, u, oldi, newi);
    TakenChildren(r, u, v, oldi, newi);
    TakenDentries(r, u, v, oldi, newi);
    assert SameInos(t, r) by { OneMoreRef(t, r, oldi); }
    JoinFrame(t, r, v, oldi, newi);
    SameResolution(t, r);
    ThroughFrame(t, r, v, oldi, newi);
    ChildrenFrame(t, r, v, oldi, newi);
    TakenOthers(t, r, u, v, oldi, newi);
    FadesAt(u, v, oldi);
    FadesAt(u, v, newi);
  }

  lemma JoinFrame(t: Table, r: Table, v: Table, oldi: InodePtr, newi: InodePtr)
    requires t.dentries == r.dentries && SameInos(t, r) && DentriesJoin(r, v, oldi, newi)
    ensures DentriesJoin(t, v, oldi, newi)
  {
    forall i, par, name ensures HasDentry(t, i, par, name) <==> HasDentry(r, i, par, name) {
      DentryFrame(t, r, i, par, name);
    }
  }

  lemma DentryFrame(t: Table, r: Table, i: InodePtr, par: nat, name: string)
    requires t.dentries == r.dentries
    requires forall d :: d in t.dentries ==> (Under(t, d, par, name) <==> Under(r, d, par, name))
    ensures HasDentry(t, i, par, name) <==> HasDentry(r, i, par, name)
  {
  }

  lemma OneMoreRef(t: Table, r: Table, i: InodePtr)
    requires i in t.inodes && r.inodes == t.inodes[i := t.inodes[i].(ref := t.inodes[i].ref + 1)]
    ensures SameInos(t, r)
  {
  }

  lemma ChildrenFrame(t: Table, r: Table, v: Table, oldi: InodePtr, newi: InodePtr)
    requires t.dentries == r.dentries && ChildrenMoved(r, v, oldi, newi)
    ensures ChildrenMoved(t, v, oldi, newi)
  {
  }

  lemma TakenOthers(t: Table, r: Table, u: Table, v: Table, oldi: InodePtr, newi: InodePtr)
    requires oldi in t.inodes && r.inodes == t.inodes[oldi := t.inodes[oldi].(ref := t.inodes[oldi].ref + 1)]
    requires Bystanders(r, u, oldi, newi) && OthersSame(u, v, {oldi})
    ensures OthersSame(t, v, {oldi, newi}) && u.lruLimit == r.lruLimit
  {
  }

  lemma FadesAt(u: Table, v: Table, i: InodePtr)
    requires Fades(u, v, {}) && i in u.inodes
    ensures i in v.inodes && InodeFades(u.inodes[i], v.inodes[i], HashedOnly(u.dentries, u.inodes[i].dentryList), false)
  {
    hide HashedOnly, InodeFades;
  }

  lemma RehomedInPlace(r: Table, u: Table, oldi: InodePtr, newi: InodePtr)
    requires Rehomed(r, u, oldi, newi)
    ensures InPlace(r, u, oldi, newi)
  {
  }

  lemma ReplacedInos(r: Table, u: Table, oldi: InodePtr, newi: InodePtr)
    requires Replaced(r, u, oldi, newi)
    ensures SameInos(r, u)
  {
    hide Rehomed;
  }

  /** Reference counts do not take part in resolution. */
  lemma SameResolution(t: Table, r: Table)
    requires t.dentries == r.dentries && SameInos(t, r)
    ensures forall d, par, name :: Names(t, d, par, name) <==> Names(r, d, par, name)
    ensures forall par, name, j :: Binds(t, par, name, j) <==> Binds(r, par, name, j)
  {
    forall par, name, j ensures Binds(t, par, name, j) <==> Binds(r, par, name, j) {
      if Binds(t, par, name, j) {
        var d :| Names(t, d, par, name) && t.dentries[d].inode == j;
        assert Names(r, d, par, name);
      }
      if Binds(r, par, name, j) {
        var d :| Names(r, d, par, name) && r.dentries[d].inode == j;
        assert Names(t, d, par, name);
      }
    }
  }

  lemma ThroughFrame(t: Table, r: Table, v: Table, oldi: InodePtr, newi: InodePtr)
    requires forall par, name, j :: Binds(t, par, name, j) <==> Binds(r, par, name, j)
    requires NamesThrough(r, v, Some(oldi), newi)
    ensures NamesThrough(t, v, Some(oldi), newi)
  {
    hide Binds;
    forall par, name, j ensures Binds(v, par, name, j) <==> BindsThrough(t, par, name, Some(oldi), newi, j) {
      assert BindsThrough(t, par, name, Some(oldi), newi, j) <==> BindsThrough(r, par, name, Some(oldi), newi, j);
    }
  }

  // ---------------------------------------------------------------- taking a number

  function SetNumber(t: Table, i: InodePtr, ino: nat, mode: nat): Table
    requires i in t.inodes
  {
    t.(inodes := t.inodes[i := t.inodes[i].(ino := ino, mode := mode)])
  }

  /** A number may be set on an inode that is not hashed, or that has it already. */
  lemma SetNumberKeeps(t: Table, held: map<InodePtr, nat>, i: InodePtr, ino: nat, mode: nat)
    requires Inv(t, held, {}) && i in t.inodes && i in held
    requires t.inodes[i].ino == ino || (t.inodes[i].ino == 0 && !t.inodes[i].hashed)
    ensures Inv(SetNumber(t, i, ino, mode), held, {})
    ensures SameNames(t, SetNumber(t, i, ino, mode))
  {
    hide LinksOk, NumbersOk, NamesOk, NameBucketsOk, ListsOk, Accounts, Tidy, SameInos, SameNames;
    var u := SetNumber(t, i, ino, mode);
    if t.inodes[i].ino == ino {
      assert SameInos(t, u) by { SetNumberSame(t, i, ino, mode); }
      SetNumberSame(t, i, ino, mode);
      InvFrame(t, u, held, {});
    } else {
      SetNumberParts(t, held, i, ino, mode);
      SetNumberNames(t, held, i, ino, mode);
    }
    SetNumberBinds(t, held, i, ino, mode);
  }

  lemma SetNumberSame(t: Table, i: InodePtr, ino: nat, mode: nat)
    requires i in t.inodes && t.inodes[i].ino == ino
    ensures var u := SetNumber(t, i, ino, mode);
      SameGraph(t, u) && SameLists(t, u) && SameCounts(t, u) && SameInos(t, u)
  {
  }

  lemma SetNumberParts(t: Table, held: map<InodePtr, nat>, i: InodePtr, ino: nat, mode: nat)
    requires LinksOk(t) && NumbersOk(t) && ListsOk(t) && Accounts(t, held) && Tidy(t, {}) && NamesOk(t, {})
    requires i in t.inodes && !t.inodes[i].hashed && t.inodes[i].ino == 0
    ensures var u := SetNumber(t, i, ino, mode);
      LinksOk(u) && NumbersOk(u) && ListsOk(u) && Accounts(u, held) && Tidy(u, {}) && NamesOk(u, {})
  {
    hide LinksOk, NumbersOk, ListsOk, Accounts, Tidy, NamesOk;
    var u := SetNumber(t, i, ino, mode);
    LinksFrame(t, u);
    SetNumberNumbers(t, i, ino, mode);
    ListsFrame(t, u);
    SetNumberAccounts(t, held, i, ino, mode);
    TidyFrame(t, u, {});
    NamesFrame(t, u, {});
  }

  lemma SetNumberNumbers(t: Table, i: InodePtr, ino: nat, mode: nat)
    requires NumbersOk(t) && i in t.inodes && !t.inodes[i].hashed
    ensures NumbersOk(SetNumber(t, i, ino, mode))
  {
    hide NoDup, HashInode;
    var u := SetNumber(t, i, ino, mode);
    forall j, k | j in u.inodes && k in u.inodes && SameNumber(u.inodes[j], u.inodes[k]) ensures j == k {
      assert SameNumber(t.inodes[j], t.inodes[k]);
    }
  }

  lemma SetNumberAccounts(t: Table, held: map<InodePtr, nat>, i: InodePtr, ino: nat, mode: nat)
    requires Accounts(t, held) && NamesOk(t, {}) && LinksOk(t) && i in t.inodes && !t.inodes[i].hashed
    requires t.inodes[i].ino == 0
    ensures Accounts(SetNumber(t, i, ino, mode), held)
    ensures t.inodes[i].childList == []
  {
    hide NoDup;
    if t.inodes[i].childList != [] {
      ParentHashed(t, {}, i);
    }
  }

  lemma SetNumberNames(t: Table, held: map<InodePtr, nat>, i: InodePtr, ino: nat, mode: nat)
    requires NameBucketsOk(t) && NamesOk(t, {}) && i in t.inodes && !t.inodes[i].hashed
    ensures NameBucketsOk(SetNumber(t, i, ino, mode))
  {
    hide NoDup, HashName;
    var u := SetNumber(t, i, ino, mode);
    assert forall d :: d in t.dentries ==> NameBucket(t, d) == NameBucket(u, d);
  }

  /** Names and numbers resolve alike in both tables. */
  ghost predicate SameNames(t: Table, u: Table) {
    && (forall d: DentryPtr, par, name :: Names(u, d, par, name) <==> Names(t, d, par, name))
    && (forall par, name, j :: Binds(u, par, name, j) <==> Binds(t, par, name, j))
    && (forall ino, j: InodePtr :: HasNumber(u, ino, j) <==> HasNumber(t, ino, j))
  }

  lemma SetNumberBinds(t: Table, held: map<InodePtr, nat>, i: InodePtr, ino: nat, mode: nat)
    requires Inv(t, held, {}) && i in t.inodes
    requires t.inodes[i].ino == ino || !t.inodes[i].hashed
    ensures SameNames(t, SetNumber(t, i, ino, mode))
  {
    hide LinksOk, NumbersOk, NameBucketsOk, ListsOk, Accounts, Tidy;
    var u := SetNumber(t, i, ino, mode);
    assert forall d: DentryPtr, par, name :: Names(u, d, par, name) <==> Names(t, d, par, name);
    forall par, name, j ensures Binds(u, par, name, j) <==> Binds(t, par, name, j) {
      if Binds(u, par, name, j) {
        var d :| Names(u, d, par, name) && u.dentries[d].inode == j;
        assert Names(t, d, par, name);
      }
      if Binds(t, par, name, j) {
        var d :| Names(t, d, par, name) && t.dentries[d].inode == j;
        assert Names(u, d, par, name);
      }
    }
  }

  lemma InodeHashKeeps(t: Table, held: map<InodePtr, nat>, ex: set<InodePtr>, i: InodePtr)
    requires Inv(t, held, ex) && i in t.inodes && NumberFree(t, i) && |t.inodeHash| == HASHSIZE
    requires t.inodes[i].ref > 0 || t.inodes[i].hashed
    ensures Inv(InodeHash(t, i), held, ex - {i})
  {
    hide Graph, ListsOk, Accounts, Tidy, InodeHash, NumberFree, SameCounts;
    InodeHashGraph(t, held, ex, i);
    InodeHashCounts(t, i);
    AccountsFrame(t, InodeHash(t, i), held);
  }

  lemma InodeHashCounts(t: Table, i: InodePtr)
    requires ListsOk(t) && i in t.inodes && (t.inodes[i].ref > 0 || t.inodes[i].hashed) && |t.inodeHash| == HASHSIZE
    ensures ListsOk(InodeHash(t, i)) && SameCounts(t, InodeHash(t, i))
  {
    hide NoDup, HashInode, Remove;
  }

  /** `i` is now the inode of number `ino`, in the place of `replaced` if there was one. */
  ghost predicate Numbered(t: Table, v: Table, i: InodePtr, ino: nat, replaced: Option<InodePtr>) {
    && i in t.inodes && i in v.inodes && v.inodes[i].hashed && v.inodes[i].ino == ino
    && (t.inodes[i].ref > 0 ==> v.inodes[i].ref > 0)
    && NumbersTo(t, v, i, ino) && NamesThrough(t, v, replaced, i) && v.lruLimit == t.lruLimit
    && v.lru == Without(t.lru, replaced)
    && (match replaced
        case None =>
          && (forall j: InodePtr :: HasNumber(t, ino, j) ==> j == i)
          && v.dentries == t.dentries && v.root == t.root
          && v.inodes == t.inodes[i := t.inodes[i].(ino := ino, mode := v.inodes[i].mode, hashed := true)]
        case Some(o) =>
          && HasNumber(t, ino, o) && o != i && o in v.inodes && !v.inodes[o].hashed
          && (ino == 1 ==> v.inodes[o].ref > 0)
          && v.inodes[o].ino == ino && DentriesJoin(t, v, o, i)
          && OthersSame(t, v, {o, i}) && ChildrenMoved(t, v, o, i)
          && v.inodes[i].nlookup == t.inodes[o].nlookup && v.inodes[i].generation == t.inodes[o].generation
          && v.root == if ino == 1 then i else t.root)
  }

  function Without(list: seq<InodePtr>, o: Option<InodePtr>): seq<InodePtr> {
    match o case None => list case Some(x) => Remove(list, x)
  }

  /** The inode's mode is the one given. */
  predicate ModeSet(u: Table, i: InodePtr, mode: nat) {
    i in u.inodes && u.inodes[i].mode == mode
  }

  lemma TakenMode(t: Table, v: Table, oldi: InodePtr, newi: InodePtr, mode: nat)
    requires Taken(t, v, oldi, newi) && ModeSet(t, newi, mode)
    ensures ModeSet(v, newi, mode)
  {
  }

  lemma HashMode(t: Table, i: InodePtr, mode: nat)
    requires ModeSet(t, i, mode) && |t.inodeHash| == HASHSIZE
    ensures ModeSet(InodeHash(t, i), i, mode)
  {
    hide Remove;
  }

  lemma NameMode(t: Table, u: Table, i: InodePtr, p: InodePtr, name: string, mode: nat)
    requires p in t.inodes && NameSet(t, u, i, p, name) && ModeSet(t, i, mode)
    ensures ModeSet(u, i, mode)
  {
  }

  ghost predicate NumbersTo(t: Table, v: Table, i: InodePtr, ino: nat) {
    forall k, j: InodePtr :: HasNumber(v, k, j) <==> if k == ino then j == i else HasNumber(t, k, j)
  }

  lemma UnnumberedUnhashed(t: Table, i: InodePtr)
    requires NumbersOk(t) && i in t.inodes && t.inodes[i].ino == 0
    ensures !t.inodes[i].hashed
  {
    hide NoDup, HashInode;
  }

  lemma TakeOverCase(s: Table, i: InodePtr, ino: nat, o: InodePtr)
    requires NumbersOk(s) && i in s.inodes && s.inodes[i].ino == ino && HasNumber(s, ino, o) && o != i
    ensures o in s.inodes && s.inodes[o].hashed && s.inodes[o].ino == ino && !s.inodes[i].hashed
  {
    if s.inodes[i].hashed {
      NumberUnique(s, ino, i, o);
    }
  }

  lemma FreeCase(s: Table, i: InodePtr, ino: nat, found: Option<InodePtr>)
    requires NumbersOk(s) && i in s.inodes && s.inodes[i].ino == ino && ino != 0
    requires found.None? ==> forall j: InodePtr :: !HasNumber(s, ino, j)
    requires found.Some? ==> HasNumber(s, ino, found.value) && found.value == i
    ensures NumberFree(s, i)
  {
    hide NumbersOk;
    forall j | j in s.inodes && s.inodes[j].hashed && s.inodes[j].ino == s.inodes[i].ino ensures j == i {
      assert HasNumber(s, ino, j);
      if found.Some? { NumberUnique(s, ino, i, j); }
    }
  }

  lemma TakenFree(s: Table, v: Table, ino: nat, o: InodePtr, i: InodePtr)
    requires NumbersOk(s) && Taken(s, v, o, i) && HasNumber(s, ino, o) && s.inodes[i].ino == ino && ino != 0
    ensures i in v.inodes && NumberFree(v, i) && v.inodes[i].ref > 0
  {
    hide NumbersOk;
    forall j | j in v.inodes && v.inodes[j].hashed && v.inodes[j].ino == v.inodes[i].ino ensures j == i {
      if j != o && j != i {
        assert SameRecord(s.inodes[j], v.inodes[j]);
        NumberUnique(s, ino, o, j);
      }
    }
  }

  lemma NumberedAlone(t: Table, s: Table, i: InodePtr, ino: nat, mode: nat)
    requires i in t.inodes && s == SetNumber(t, i, ino, mode) && SameNames(t, s) && NumberFree(s, i)
    requires |s.inodeHash| == HASHSIZE
    requires t.inodes[i].ino == ino || !t.inodes[i].hashed
    ensures Numbered(t, InodeHash(s, i), i, ino, None)
  {
    hide Binds, Remove, HashInode;
    var v := InodeHash(s, i);
    HashBinds(s, i);
    assert v.inodes == t.inodes[i := t.inodes[i].(ino := ino, mode := v.inodes[i].mode, hashed := true)];
  }

  lemma HashBinds(s: Table, i: InodePtr)
    requires i in s.inodes && |s.inodeHash| == HASHSIZE
    ensures var v := InodeHash(s, i);
      && (forall par, name, j :: Binds(v, par, name, j) <==> Binds(s, par, name, j))
      && v == s.(inodes := s.inodes[i := s.inodes[i].(hashed := true)], inodeHash := v.inodeHash)
  {
    hide Binds, Remove, HashInode, Names;
    SameResolution(s, InodeHash(s, i));
  }

  /** An unhashed inode is no parent, so that its number takes no part in any name. */
  lemma JoinByTakeOver(t: Table, s: Table, v: Table, x: Table, i: InodePtr, o: InodePtr)
    requires NamesOk(t, {}) && i in t.inodes && s.dentries == t.dentries && s.inodes.Keys == t.inodes.Keys
    requires forall k :: k in t.inodes && t.inodes[k].hashed ==> s.inodes[k].ino == t.inodes[k].ino
    requires DentriesJoin(s, v, o, i) && x.dentries == v.dentries && SameInos(v, x)
    ensures DentriesJoin(t, x, o, i)
  {
    forall k, par, name ensures HasDentry(t, k, par, name) <==> HasDentry(s, k, par, name) {
      DentryFrame(t, s, k, par, name);
    }
    forall par, name ensures HasDentry(x, i, par, name) <==> HasDentry(v, i, par, name) {
      DentryFrame(x, v, i, par, name);
    }
  }

  lemma NumberedByTakeOver(t: Table, s: Table, v: Table, i: InodePtr, ino: nat, mode: nat, o: InodePtr)
    requires NamesOk(t, {}) && i in t.inodes && (t.inodes[i].ino == ino || !t.inodes[i].hashed)
    requires i in t.inodes && s == SetNumber(t, i, ino, mode) && SameNames(t, s) && Taken(s, v, o, i) && o != i
    requires HasNumber(s, ino, o) && NumberFree(v, i) && !s.inodes[i].hashed && |v.inodeHash| == HASHSIZE
    ensures Numbered(t, InodeHash(v, i), i, ino, Some(o))
  {
    hide Binds, Names, InodeHash, Remove, HasDentry;
    HashBinds(v, i);
    var x := InodeHash(v, i);
    assert DentriesJoin(t, x, o, i) by { JoinByTakeOver(t, s, v, x, i, o); }
    assert forall j :: j in t.inodes && j != i ==> s.inodes[j] == t.inodes[j];
    assert NumbersTo(t, x, i, ino) by { NumbersByTakeOver(t, s, v, x, i, ino, o); }
    assert NamesThrough(t, x, Some(o), i) by {
      forall par, name, j ensures Binds(x, par, name, j) <==> BindsThrough(t, par, name, Some(o), i, j) {
        assert Binds(v, par, name, j) <==> BindsThrough(s, par, name, Some(o), i, j);
      }
    }
  }

  lemma NumbersByTakeOver(t: Table, s: Table, v: Table, x: Table, i: InodePtr, ino: nat, o: InodePtr)
    requires SameNames(t, s) && OthersSame(s, v, {o, i}) && o in v.inodes && i in v.inodes && o != i
    requires !v.inodes[o].hashed && !s.inodes[i].hashed && v.inodes[i].ino == ino && HasNumber(s, ino, o)
    requires NumberFree(v, i)
    requires x.inodes == v.inodes[i := v.inodes[i].(hashed := true)]
    ensures NumbersTo(t, x, i, ino)
  {
    hide Binds, Names;
    forall k, j: InodePtr ensures HasNumber(x, k, j) <==> if k == ino then j == i else HasNumber(t, k, j) {
      assert HasNumber(t, k, j) <==> HasNumber(s, k, j);
      if j in s.inodes && j != i && j != o {
        assert SameRecord(s.inodes[j], v.inodes[j]);
      }
    }
  }

  // ---------------------------------------------------------------- setting a name

  /** `name` under `p` resolves to `i` and nothing else has changed that a caller can see. */
  ghost predicate NameSet(t: Table, u: Table, i: InodePtr, p: InodePtr, name: string)
    requires p in t.inodes
  {
    SetFrame(t, u, i) && NamesExcept(t, u, i, t.inodes[p].ino, name)
  }

  /** `m` is `t`, possibly with an unhashed dentry for the name on `i`; `d` is that dentry. */
  ghost predicate NameReady(t: Table, m: Table, i: InodePtr, p: InodePtr, name: string, d: DentryPtr) {
    && m.inodes.Keys == t.inodes.Keys && m.root == t.root && m.lruLimit == t.lruLimit && m.lru == t.lru
    && m.purge == t.purge
    && p in t.inodes && i in t.inodes
    && (forall k :: k in t.inodes ==> SameBut(t.inodes[k], m.inodes[k]))
    && (forall k :: k in t.inodes && k != i ==> m.inodes[k].dentryList == t.inodes[k].dentryList)
    && d in m.dentries && m.dentries[d].inode == i && m.dentries[d].parent == p && m.dentries[d].name == name
    && (forall e :: e in t.dentries ==> e in m.dentries && m.dentries[e] == t.dentries[e])
    && (forall e :: e in m.dentries && e !in t.dentries ==> e == d && !m.dentries[e].hashed)
  }

  lemma ActiveNotPurged(t: Table, i: InodePtr)
    requires ListsOk(t) && i in t.inodes && (t.inodes[i].ref > 0 || t.inodes[i].hashed)
    ensures i !in t.purge
  {
    hide NoDup;
  }

  lemma NameCreated(t: Table, i: InodePtr, p: InodePtr, name: string, d: DentryPtr)
    requires i in t.inodes && p in t.inodes && t.inodes[p].ref > 0 && d !in t.dentries
    ensures NameReady(t, Attach(RefStep(t, p), d, i, p, name), i, p, name, d)
  {
  }

  lemma NameFound(t: Table, i: InodePtr, name: string, d: DentryPtr)
    requires LinksOk(t) && i in t.inodes && d in t.inodes[i].dentryList && d in t.dentries
    requires t.dentries[d].parent in t.inodes && t.dentries[d].name == name
    ensures NameReady(t, t, i, t.dentries[d].parent, name, d)
  {
    hide NoDup;
  }

  lemma OwnDentry(t: Table, i: InodePtr, par: nat, name: string, found: Option<DentryPtr>)
    requires LinksOk(t) && i in t.inodes
    requires found.Some? ==> found.value in t.inodes[i].dentryList && Under(t, found.value, par, name)
    requires found.None? ==> forall d :: d in t.inodes[i].dentryList ==> !Under(t, d, par, name)
    ensures found.Some? <==> HasDentry(t, i, par, name)
  {
    hide NoDup;
  }

  /** Inode `i` has a name in a directory that is not hashed. */
  ghost predicate Stale(t: Table, i: InodePtr, p: InodePtr) {
    exists d :: StaleAt(t, i, p, d)
  }

  predicate StaleAt(t: Table, i: InodePtr, p: InodePtr, d: DentryPtr) {
    d in t.dentries && t.dentries[d].inode == i && t.dentries[d].parent == p && p in t.inodes && !t.inodes[p].hashed
  }

  lemma StaleBreaks(t: Table, i: InodePtr, p: InodePtr)
    requires Stale(t, i, p)
    ensures !NamesOk(t, {})
  {
    var d :| StaleAt(t, i, p, d);
    assert !(t.inodes[t.dentries[d].parent].hashed || t.dentries[d].parent in {});
  }

  /** A dentry made under an unhashed directory stays there. */
  lemma StaleParent(t: Table, m: Table, u: Table, i: InodePtr, p: InodePtr, name: string, d: DentryPtr)
    requires NameReady(t, m, i, p, name, d) && !t.inodes[p].hashed && SetFrame(m, u, i)
    ensures Stale(u, i, p)
  {
    assert StaleAt(u, i, p, d);
  }

  lemma SameDirectory(t: Table, u: Table, i: InodePtr, r: InodePtr, p: InodePtr, name: string)
    requires r in t.inodes && p in t.inodes && t.inodes[r].ino == t.inodes[p].ino && NameSet(t, u, i, r, name)
    ensures NameSet(t, u, i, p, name)
  {
    hide SetFrame, NamesExcept;
  }

  /** What taking a number adds to the purge list: the inode replaced, unless it is number 1 or held. */
  lemma NumberedPurge(t: Table, v: Table, held: map<InodePtr, nat>, i: InodePtr, ino: nat, replaced: Option<InodePtr>)
    requires ListsOk(t) && Numbered(t, v, i, ino, replaced) && Inv(v, held, {}) && i !in t.purge
    ensures PurgedBy(t, v, held, ino, replaced)
  {
    hide NoDup, Binds, BindsThrough, NumbersTo, NamesThrough, HasDentry, ChildrenMoved, Remove;
    if replaced.Some? { OldEnds(v, held, {}, replaced.value); }
    hide LinksOk, NumbersOk, NamesOk, NameBucketsOk, Accounts, Tidy;
    forall k ensures k in v.purge <==> k in t.purge || (replaced == Some(k) && ino != 1 && k in held && held[k] == 0) {
      if k in t.inodes && k != i && replaced != Some(k) {
        assert SameRecord(t.inodes[k], v.inodes[k]);
      }
    }
  }

  ghost predicate PurgedBy(t: Table, v: Table, held: map<InodePtr, nat>, ino: nat, replaced: Option<InodePtr>) {
    forall k :: k in v.purge <==> k in t.purge || (replaced == Some(k) && ino != 1 && k in held && held[k] == 0)
  }

  lemma NameReadyFacts(t: Table, m: Table, i: InodePtr, p: InodePtr, name: string, d: DentryPtr)
    requires NameReady(t, m, i, p, name, d)
    ensures p in m.inodes && m.inodes[p].ino == t.inodes[p].ino && d in m.dentries && m.dentries[d].parent == p
    ensures i in m.inodes && m.inodes[i].hashed == t.inodes[i].hashed && p in t.inodes
    ensures m.dentries[d].inode == i && m.dentries[d].name == name
  {
  }

  /** The name hash after the last two statements of a link. */
  function Renamed(m: Table, o: Option<DentryPtr>, d: DentryPtr): Table
    requires d in m.dentries && m.dentries[d].parent in m.inodes && |m.nameHash| == HASHSIZE
    requires o.Some? ==> o.value in m.dentries && m.dentries[o.value].parent in m.inodes
  {
    DentryHash(if o.Some? then DentryUnhash(m, o.value) else m, d)
  }

  lemma NameStep(
    t: Table, m: Table, held: map<InodePtr, nat>, ex: set<InodePtr>, i: InodePtr, p: InodePtr, name: string,
    d: DentryPtr, o: Option<DentryPtr>)
    requires Inv(m, held, ex) && NameReady(t, m, i, p, name, d) && t.inodes[i].hashed && |m.nameHash| == HASHSIZE
    requires LinksOk(t) && NumbersOk(t) && NamesOk(t, {})
    requires o.Some? ==> Names(m, o.value, t.inodes[p].ino, name)
    requires o.None? ==> forall e: DentryPtr :: !Names(m, e, t.inodes[p].ino, name)
    ensures Inv(Renamed(m, o, d), held, ex) && NameSet(t, Renamed(m, o, d), i, p, name)
    ensures SetFrame(m, Renamed(m, o, d), i)
  {
    hide Inv, LinksOk, NumbersOk, NamesOk, NameBucketsOk, ListsOk, Accounts, Tidy, Renamed, NameReady, SetFrame;
    hide NamesExcept, Binds, Named;
    InvParts(m, held, ex);
    NameReadyFacts(t, m, i, p, name, d);
    ReadyNames(t, m, i, p, name, d);
    NameOnly(t, t.inodes[p].ino, name, o);
    NameStepInv(m, held, ex, i, p, name, d, o);
    SelfReady(m, i, p, name, d);
    RenamedFrame(m, m, i, p, name, d, o);
    RenamedNamed(m, o, d);
    RenamedFrame(t, m, i, p, name, d, o);
    NameStepBinds(t, m, Renamed(m, o, d), i, p, name, d, o);
  }

  lemma SelfReady(m: Table, i: InodePtr, p: InodePtr, name: string, d: DentryPtr)
    requires i in m.inodes && p in m.inodes && d in m.dentries && m.dentries[d].inode == i
    requires m.dentries[d].parent == p && m.dentries[d].name == name
    ensures NameReady(m, m, i, p, name, d)
  {
  }

  /** An unhashed dentry names nothing. */
  lemma ReadyNames(t: Table, m: Table, i: InodePtr, p: InodePtr, name: string, d: DentryPtr)
    requires NameReady(t, m, i, p, name, d) && LinksOk(t)
    ensures forall e: DentryPtr, q, n :: Names(m, e, q, n) <==> Names(t, e, q, n)
  {
    hide NoDup;
  }

  lemma NameOnly(m: Table, par: nat, name: string, o: Option<DentryPtr>)
    requires NumbersOk(m) && NamesOk(m, {})
    requires o.Some? ==> Names(m, o.value, par, name)
    requires o.None? ==> forall e: DentryPtr :: !Names(m, e, par, name)
    ensures forall e: DentryPtr :: Names(m, e, par, name) ==> o == Some(e)
  {
    hide NumbersOk, NamesOk;
    forall e: DentryPtr | Names(m, e, par, name) ensures o == Some(e) {
      NameUnique(m, par, name, e, o.value);
    }
  }

  lemma NameStepInv(
    m: Table, held: map<InodePtr, nat>, ex: set<InodePtr>, i: InodePtr, p: InodePtr, name: string, d: DentryPtr,
    o: Option<DentryPtr>)
    requires Inv(m, held, ex) && |m.nameHash| == HASHSIZE && d in m.dentries && i in m.inodes && m.inodes[i].hashed
    requires p in m.inodes
    requires m.dentries[d].inode == i && m.dentries[d].parent == p && m.dentries[d].name == name
    requires o.Some? ==> Names(m, o.value, m.inodes[p].ino, name)
    requires forall e: DentryPtr :: Names(m, e, m.inodes[p].ino, name) ==> o == Some(e)
    ensures Inv(Renamed(m, o, d), held, ex)
  {
    hide Inv, LinksOk, NumbersOk, NamesOk, NameBucketsOk, ListsOk, Accounts, Tidy, HashName, Remove;
    InvParts(m, held, ex);
    LinkedDentry(m, d);
    var w := if o.Some? then DentryUnhash(m, o.value) else m;
    if o.Some? {
      DentryUnhashKeeps(m, held, ex, o.value);
    }
    forall e | e in m.dentries && m.dentries[e].hashed && SameName(m.dentries[e], m.dentries[d]) ensures o == Some(e) {
      assert Names(m, e, m.inodes[p].ino, name);
    }
    assert NameFree(w, ex, d);
    DentryHashKeeps(w, held, ex, d);
  }

  lemma RenamedNamed(m: Table, o: Option<DentryPtr>, d: DentryPtr)
    requires d in m.dentries && m.dentries[d].parent in m.inodes && |m.nameHash| == HASHSIZE
    requires o.Some? ==> o.value in m.dentries && m.dentries[o.value].parent in m.inodes
    ensures Named(m, Renamed(m, o, d), o, d)
  {
    hide HashName, Remove;
  }

  /** The first name of `i` is `name` under `p`, and it is hashed. */
  ghost predicate Newest(u: Table, i: InodePtr, p: InodePtr, name: string) {
    && i in u.inodes && u.inodes[i].dentryList != [] && u.inodes[i].dentryList[0] in u.dentries
    && u.dentries[u.inodes[i].dentryList[0]] == Dentry(i, p, name, true)
  }

  lemma RenamedNewest(m: Table, i: InodePtr, p: InodePtr, name: string, d: DentryPtr, o: Option<DentryPtr>)
    requires d in m.dentries && m.dentries[d] == Dentry(i, p, name, false) && p in m.inodes && |m.nameHash| == HASHSIZE
    requires i in m.inodes && m.inodes[i].dentryList != [] && m.inodes[i].dentryList[0] == d
    requires o.Some? ==> o.value in m.dentries && m.dentries[o.value].parent in m.inodes
    ensures Newest(Renamed(m, o, d), i, p, name)
  {
    hide Renamed;
    RenamedNamed(m, o, d);
    RenamedChildren(m, o, d);
  }

  /** Setting a name changes no inode but for the order of the children of the directory. */
  ghost predicate OnlyChildren(m: Table, u: Table) {
    && u.inodes.Keys == m.inodes.Keys && u.root == m.root && u.lruLimit == m.lruLimit && u.lru == m.lru
    && u.purge == m.purge
    && forall k :: k in m.inodes ==> u.inodes[k] == m.inodes[k].(childList := u.inodes[k].childList)
  }

  lemma RenamedChildren(m: Table, o: Option<DentryPtr>, d: DentryPtr)
    requires d in m.dentries && m.dentries[d].parent in m.inodes && |m.nameHash| == HASHSIZE
    requires o.Some? ==> o.value in m.dentries && m.dentries[o.value].parent in m.inodes
    ensures OnlyChildren(m, Renamed(m, o, d))
  {
    hide HashName, Remove;
  }

  ghost predicate SetFrame(t: Table, u: Table, i: InodePtr) {
    && u.inodes.Keys == t.inodes.Keys && u.root == t.root && u.lruLimit == t.lruLimit && u.lru == t.lru
    && u.purge == t.purge
    && (forall k :: k in t.inodes ==> SameBut(t.inodes[k], u.inodes[k]))
    && (forall k :: k in t.inodes && k != i ==> u.inodes[k].dentryList == t.inodes[k].dentryList)
    && (forall d :: d in t.dentries ==>
          d in u.dentries && u.dentries[d].inode == t.dentries[d].inode && SameName(u.dentries[d], t.dentries[d]))
  }

  lemma RenamedFrame(t: Table, m: Table, i: InodePtr, p: InodePtr, name: string, d: DentryPtr, o: Option<DentryPtr>)
    requires NameReady(t, m, i, p, name, d) && m.dentries[d].parent in m.inodes && |m.nameHash| == HASHSIZE
    requires o.Some? ==> o.value in m.dentries && m.dentries[o.value].parent in m.inodes
    ensures SetFrame(t, Renamed(m, o, d), i)
  {
    hide Renamed;
    RenamedChildren(m, o, d);
    RenamedNamed(m, o, d);
  }

  ghost predicate NamesExcept(t: Table, u: Table, i: InodePtr, par: nat, name: string) {
    forall q, n, j :: Binds(u, q, n, j) <==> if q == par && n == name then j == i else Binds(t, q, n, j)
  }

  lemma NameStepBinds(t: Table, m: Table, u: Table, i: InodePtr, p: InodePtr, name: string, d: DentryPtr,
      o: Option<DentryPtr>)
    requires NameReady(t, m, i, p, name, d) && Named(m, u, o, d) && LinksOk(t)
    requires forall e: DentryPtr :: Names(m, e, t.inodes[p].ino, name) ==> o == Some(e)
    requires o.Some? ==> Names(m, o.value, t.inodes[p].ino, name)
    ensures NamesExcept(t, u, i, t.inodes[p].ino, name)
  {
    hide Named, LinksOk;
    ReadyBinds(t, m, i, p, name, d);
    hide NameReady, Binds;
    forall q, n, j
      ensures Binds(u, q, n, j) <==> if q == t.inodes[p].ino && n == name then j == i else Binds(t, q, n, j)
    {
      NamedBinds(m, u, o, d, t.inodes[p].ino, name, q, n, j);
    }
  }

  lemma ReadyBinds(t: Table, m: Table, i: InodePtr, p: InodePtr, name: string, d: DentryPtr)
    requires NameReady(t, m, i, p, name, d) && LinksOk(t)
    ensures forall q, n, j :: Binds(m, q, n, j) <==> Binds(t, q, n, j)
    ensures d in m.dentries && m.dentries[d].inode == i && m.dentries[d].parent in m.inodes && p in t.inodes
    ensures m.inodes[m.dentries[d].parent].ino == t.inodes[p].ino && m.dentries[d].name == name
  {
    hide NoDup;
    forall q, n, j ensures Binds(m, q, n, j) <==> Binds(t, q, n, j) {
      if Binds(m, q, n, j) {
        var e :| Names(m, e, q, n) && m.dentries[e].inode == j;
        assert Names(t, e, q, n);
      }
      if Binds(t, q, n, j) {
        var e :| Names(t, e, q, n) && t.dentries[e].inode == j;
        assert Names(m, e, q, n);
      }
    }
  }

  // ---------------------------------------------------------------- a link as a whole

  /** What names resolve to after a link: the new name to `i`, the replaced inode's names to `i`, others as before. */
  ghost predicate LinkedNames(t: Table, u: Table, i: InodePtr, dir: Option<nat>, name: string,
      replaced: Option<InodePtr>) {
    forall q: nat, n, j :: Binds(u, q, n, j) <==>
      if dir == Some(q) && n == name then j == i else BindsThrough(t, q, n, replaced, i, j)
  }

  /** `i` is linked as number `ino`, under `name` in directory number `dir` if given, for `replaced` if any. */
  ghost predicate Linked(t: Table, u: Table, i: InodePtr, ino: nat, dir: Option<nat>, name: string,
      replaced: Option<InodePtr>) {
    && i in t.inodes && i in u.inodes && u.inodes[i].hashed && u.inodes[i].ino == ino
    && NumbersTo(t, u, i, ino) && LinkedNames(t, u, i, dir, name, replaced) && u.lruLimit == t.lruLimit
    && u.lru == Without(t.lru, replaced)
    && (match replaced
        case None =>
          && (forall j: InodePtr :: HasNumber(t, ino, j) ==> j == i)
          && OthersSame(t, u, {i}) && u.inodes[i].nlookup == t.inodes[i].nlookup && u.root == t.root
          && u.inodes[i].generation == t.inodes[i].generation && (u.inodes[i].ref > 0 <==> t.inodes[i].ref > 0)
          && (dir.None? ==>
                && u.dentries == t.dentries
                && u.inodes == t.inodes[i := t.inodes[i].(ino := ino, mode := u.inodes[i].mode, hashed := true)])
        case Some(o) =>
          && HasNumber(t, ino, o) && o != i && o in u.inodes && !u.inodes[o].hashed
          && (ino == 1 ==> u.inodes[o].ref > 0)
          && OthersSame(t, u, {o, i}) && ChildrenMoved(t, u, o, i)
          && u.inodes[i].nlookup == t.inodes[o].nlookup && u.inodes[i].generation == t.inodes[o].generation
          && u.root == if ino == 1 then i else t.root)
  }

  /** The number of the directory of a link. */
  function Directory(t: Table, i: InodePtr, ino: nat, parent: Option<InodePtr>): Option<nat>
    requires parent.Some? ==> parent.value in t.inodes
  {
    match parent case None => None case Some(p) => Some(if p == i then ino else t.inodes[p].ino)
  }

  ghost predicate LinkedTo(
    t: Table, u: Table, i: InodePtr, ino: nat, parent: Option<InodePtr>, name: string, replaced: Option<InodePtr>)
  {
    && (parent.Some? ==> parent.value in t.inodes)
    && Linked(t, u, i, ino, Directory(t, i, ino, parent), if parent.Some? then name else "", replaced)
  }

  lemma LinkedNoName(t: Table, v: Table, i: InodePtr, ino: nat, replaced: Option<InodePtr>)
    requires Numbered(t, v, i, ino, replaced)
    ensures Linked(t, v, i, ino, None, "", replaced)
  {
    hide Binds, BindsThrough, HasNumber;
  }

  lemma LinkedWithName(t: Table, v: Table, u: Table, i: InodePtr, ino: nat, p: InodePtr, name: string,
      replaced: Option<InodePtr>)
    requires Numbered(t, v, i, ino, replaced) && p in v.inodes && NameSet(v, u, i, p, name)
    ensures Linked(t, u, i, ino, Some(v.inodes[p].ino), name, replaced)
  {
    hide Binds, BindsThrough;
    NumbersAgain(t, v, u, i, ino, p, name);
    assert LinkedNames(t, u, i, Some(v.inodes[p].ino), name, replaced);
    hide NumbersTo, LinkedNames, NamesExcept;
    assert forall k :: k in v.inodes ==> SameBut(v.inodes[k], u.inodes[k]);
  }

  lemma NumbersAgain(t: Table, v: Table, u: Table, i: InodePtr, ino: nat, p: InodePtr, name: string)
    requires NumbersTo(t, v, i, ino) && p in v.inodes && NameSet(v, u, i, p, name)
    ensures NumbersTo(t, u, i, ino)
  {
    hide NamesExcept;
    forall k, j: InodePtr ensures HasNumber(u, k, j) <==> if k == ino then j == i else HasNumber(t, k, j) {
      assert HasNumber(v, k, j) <==> HasNumber(u, k, j);
    }
  }

  /**
  Every parent is hashed after a link exactly if the directory is the inode itself, or hashed and not the inode that
  gets replaced, or the inode linked (or the one it replaces) already has a dentry of that name under its number.
  */
  ghost predicate Fits(t: Table, i: InodePtr, ino: nat, p: InodePtr, name: string, replaced: Option<InodePtr>)
    requires p in t.inodes
  {
    || p == i || (t.inodes[p].hashed && t.inodes[p].ino != ino)
    || HasDentry(t, i, t.inodes[p].ino, name)
    || (replaced.Some? && HasDentry(t, replaced.value, t.inodes[p].ino, name))
  }

  ghost predicate FitsParent(
    t: Table, i: InodePtr, ino: nat, parent: Option<InodePtr>, name: string, replaced: Option<InodePtr>)
  {
    parent.Some? ==> parent.value in t.inodes && Fits(t, i, ino, parent.value, name, replaced)
  }

  lemma FitsHashed(t: Table, i: InodePtr, ino: nat, p: InodePtr, name: string, replaced: Option<InodePtr>)
    requires p in t.inodes && t.inodes[p].hashed && (p == i || t.inodes[p].ino != ino)
    ensures Fits(t, i, ino, p, name, replaced)
  {
  }

  lemma NameDirectory(t: Table, m: Table, i: InodePtr, r: InodePtr, name: string, d: DentryPtr, p: InodePtr)
    requires NameReady(t, m, i, r, name, d) && p in t.inodes
    ensures p in m.inodes && m.inodes[p].ino == t.inodes[p].ino
  {
  }

  lemma NamePurge(t: Table, v: Table, u: Table, held: map<InodePtr, nat>, i: InodePtr, ino: nat, p: InodePtr,
                  name: string, replaced: Option<InodePtr>)
    requires PurgedBy(t, v, held, ino, replaced) && p in v.inodes && NameSet(v, u, i, p, name)
    ensures PurgedBy(t, u, held, ino, replaced)
  {
    hide NamesExcept;
  }

  lemma TakenOld(t: Table, v: Table, oldi: InodePtr, newi: InodePtr)
    requires Taken(t, v, oldi, newi)
    ensures oldi in v.inodes && !v.inodes[oldi].hashed && oldi in t.inodes && v.inodes[oldi].ino == t.inodes[oldi].ino
    ensures v.inodes[oldi].ino == 1 ==> v.inodes[oldi].ref > 0
  {
    hide OthersSame, ChildrenMoved, NamesThrough, DentriesJoin, Remove;
  }

  /** After the number has been taken: the directory is hashed, or there is a dentry to use. */
  ghost predicate FitsNow(v: Table, i: InodePtr, p: InodePtr, name: string)
    requires p in v.inodes
  {
    v.inodes[p].hashed || HasDentry(v, i, v.inodes[p].ino, name)
  }

  /** Neither `i` nor the inode it replaces has this name in another directory `parent`. */
  ghost predicate NewName(t: Table, i: InodePtr, parent: Option<InodePtr>, name: string, replaced: Option<InodePtr>) {
    && parent.Some? && parent.value != i && parent.value in t.inodes
    && !HasDentry(t, i, t.inodes[parent.value].ino, name)
    && (replaced.Some? ==> !HasDentry(t, replaced.value, t.inodes[parent.value].ino, name))
  }

  lemma NewAlike(t: Table, v: Table, i: InodePtr, ino: nat, parent: Option<InodePtr>, name: string,
      replaced: Option<InodePtr>)
    requires Numbered(t, v, i, ino, replaced) && NumbersOk(t) && NamesOk(t, {}) && ino != 0
    requires t.inodes[i].ino == 0 || t.inodes[i].ino == ino
    requires parent.Some? && parent.value in v.inodes
    ensures NewName(t, i, parent, name, replaced) ==> !HasDentry(v, i, v.inodes[parent.value].ino, name)
  {
    hide Binds, BindsThrough, NumbersTo, NamesThrough, HasDentry, NumbersOk, NamesOk, ChildrenMoved, Remove;
    if NewName(t, i, parent, name, replaced) && replaced.None? {
      NumberedDentries(t, v, i, ino, t.inodes[parent.value].ino, name);
    }
  }

  lemma FitsAlike(t: Table, v: Table, i: InodePtr, ino: nat, p: InodePtr, name: string, replaced: Option<InodePtr>)
    requires Numbered(t, v, i, ino, replaced) && NumbersOk(t) && NamesOk(t, {}) && p in t.inodes && ino != 0
    requires t.inodes[i].ino == 0 || t.inodes[i].ino == ino
    ensures p in v.inodes && (Fits(t, i, ino, p, name, replaced) <==> FitsNow(v, i, p, name))
  {
    hide Binds, BindsThrough, NumbersTo, NamesThrough, HasDentry, NumbersOk, NamesOk, ChildrenMoved, Remove;
    if p != i {
      if t.inodes[p].hashed && t.inodes[p].ino == ino {
        assert HasNumber(t, ino, p);
        if replaced.Some? { NumberUnique(t, ino, p, replaced.value); }
      }
      if replaced.None? { NumberedDentries(t, v, i, ino, t.inodes[p].ino, name); }
    }
  }

  /** A new number on an unhashed inode, which is no parent, changes no name. */
  lemma NumberedDentries(t: Table, v: Table, i: InodePtr, ino: nat, par: nat, name: string)
    requires NamesOk(t, {}) && NumbersOk(t) && i in t.inodes && i in v.inodes && v.dentries == t.dentries && ino != 0
    requires v.inodes == t.inodes[i := t.inodes[i].(ino := ino, mode := v.inodes[i].mode, hashed := true)]
    requires t.inodes[i].ino == 0 || t.inodes[i].ino == ino
    ensures HasDentry(v, i, par, name) <==> HasDentry(t, i, par, name)
  {
    if t.inodes[i].ino == 0 { UnnumberedUnhashed(t, i); }
    hide NumbersOk;
    DentryFrame(v, t, i, par, name);
  }

  /** The directory of the link is still what it was after the number has been taken. */
  lemma DirectoryKept(t: Table, v: Table, held: map<InodePtr, nat>, i: InodePtr, ino: nat, p: InodePtr,
      replaced: Option<InodePtr>)
    requires Numbered(t, v, i, ino, replaced) && Accounts(v, held)
    requires p in t.inodes && p in held && held[p] > 0
    ensures p in v.inodes && v.inodes[p].ref > 0
    ensures v.inodes[p].ino == if p == i then ino else t.inodes[p].ino
  {
    hide Binds, BindsThrough, NumbersTo, NamesThrough;
  }
}
